/** What every interleaving of the concurrent skip list keeps. */
module AtomicSkipProofs {
  import opened Options
  import opened Sums
  import opened TaggedPtr
  import opened AtomicSkipMachine

  // ---- The invariant ----

  ghost predicate InRange<V>(nodes: seq<Node<V>>, order: seq<nat>) {
    forall i: nat | i < |order| :: order[i] < |nodes| && 0 < |nodes[order[i]].nexts| <= TOP + 1
  }

  ghost predicate Ascending<V>(nodes: seq<Node<V>>, order: seq<nat>)
    requires InRange(nodes, order)
  {
    forall i: nat, j: nat | i < j < |order| :: nodes[order[i]].key < nodes[order[j]].key
  }

  ghost predicate Chained<V>(nodes: seq<Node<V>>, order: seq<nat>)
    requires InRange(nodes, order)
  {
    forall i: nat | i < |order| - 1 :: nodes[order[i]].nexts[0].addr == order[i + 1]
  }

  /** The nodes of `order` are level 0: ascending keys from head to tail, each linked to the next. */
  ghost predicate Ordered<V>(h: Heap<V>) {
    && 2 <= |h.order| && h.order[0] == HEAD && h.order[|h.order| - 1] == TAIL
    && InRange(h.nodes, h.order) && Ascending(h.nodes, h.order) && Chained(h.nodes, h.order)
    && h.nodes[HEAD].key == MIN_KEY && h.nodes[TAIL].key == MAX_KEY && |h.nodes[HEAD].nexts| == TOP + 1
    && !h.nodes[TAIL].nexts[0].mark && h.nodes[HEAD].handle.None? && h.nodes[TAIL].handle.None?
  }

  ghost predicate Listed<V>(h: Heap<V>, id: nat, level: nat) {
    id in h.order && HasLink(h.nodes, id, level)
  }

  /** A link out of a node with key `key` may lead to `t` on `level`. */
  ghost predicate Leads<V>(h: Heap<V>, t: nat, level: nat, key: int) {
    Listed(h, t, level) && key < h.nodes[t].key
  }

  /** On every level, listed nodes lead to listed nodes with greater keys. */
  ghost predicate LinksOk<V>(h: Heap<V>) {
    forall id: nat, level: nat | Listed(h, id, level) && id != TAIL :: Leads(h, h.nodes[id].nexts[level].addr, level, h.nodes[id].key)
  }

  ghost predicate HeapOk<V>(h: Heap<V>) {
    Ordered(h) && LinksOk(h)
  }

  ghost predicate HasKey<V>(h: Heap<V>, key: int) {
    exists id: nat :: Listed(h, id, 0) && h.nodes[id].key == key
  }

  ghost predicate PredOk<V>(h: Heap<V>, p: nat, level: nat, key: int) {
    Listed(h, p, level) && h.nodes[p].key < key
  }

  ghost predicate SuccOk<V>(h: Heap<V>, s: nat, level: nat, key: int) {
    Listed(h, s, level) && key <= h.nodes[s].key
  }

  /** The levels a search has passed: `below` is the lowest of them. */
  ghost predicate TrailOk<V>(h: Heap<V>, trail: Trail, key: int, below: nat) {
    && |trail.preds| == |trail.succs| == TOP + 1
    && forall l: nat | below <= l <= TOP :: PredOk(h, trail.preds[l], l, key) && SuccOk(h, trail.succs[l].addr, l, key)
  }

  ghost predicate NodeOk<V>(h: Heap<V>, node: nat) {
    Listed(h, node, 0) && IsKey(h.nodes[node].key)
  }

  ghost predicate LinkingOk<V>(h: Heap<V>, node: nat, level: nat, key: int) {
    1 <= level && Listed(h, node, level) && h.nodes[node].key == key
  }

  /** A node not yet linked belongs to its creator, and its links already lead onwards. */
  ghost predicate PrivateOk<V>(h: Heap<V>, node: nat, key: int, trail: Trail) {
    && node < |h.nodes| && node !in h.order && h.nodes[node].key == key
    && 0 < |h.nodes[node].nexts| <= TOP + 1 && trail.succs != []
    && h.nodes[node].nexts[0].addr == trail.succs[0].addr
    && forall l: nat | l < |h.nodes[node].nexts| :: Leads(h, h.nodes[node].nexts[l].addr, l, key)
  }

  ghost predicate ThreadOk<V>(h: Heap<V>, pc: Pc<V>) {
    match pc
    case Idle(_) => true
    case Find(goal, key, level, pred, found, trail) =>
      && IsKey(key) && level <= TOP && PredOk(h, pred, level, key) && TrailOk(h, trail, key, level + 1)
      && (found ==> HasKey(h, key))
      && (goal.ForRelink? ==> LinkingOk(h, goal.node, goal.level, key))
    case NewNode(key, _, trail) =>
      IsKey(key) && TrailOk(h, trail, key, 0) && forall l: nat | l <= TOP :: Leads(h, trail.succs[l].addr, l, key)
    case LinkBottom(key, node, trail) => IsKey(key) && TrailOk(h, trail, key, 0) && PrivateOk(h, node, key, trail)
    case LinkUpper(key, node, level, trail) => IsKey(key) && TrailOk(h, trail, key, 0) && LinkingOk(h, node, level, key)
    case Fault => false
    case _ => NodeOk(h, pc.node)
  }

  ghost predicate Exclusive<V>(threads: seq<Pc<V>>) {
    forall i: nat, j: nat | i < j < |threads| && threads[i].LinkBottom? && threads[j].LinkBottom? :: threads[i].node != threads[j].node
  }

  ghost predicate ThreadsOk<V>(st: State<V>) {
    forall id: nat | id < |st.threads| :: ThreadOk(st.heap, st.threads[id])
  }

  ghost predicate Uncounted<V>(pc: Pc<V>) {
    pc.LinkUpper? || pc.CountNode? || (pc.Find? && pc.goal.ForRelink?)
  }

  ghost function Weights<V>(threads: seq<Pc<V>>): seq<int> {
    seq(|threads|, id requires 0 <= id < |threads| => if Uncounted(threads[id]) then 1 else 0)
  }

  /** The node counter is the length of level 0 but for the inserts still linking upper levels. */
  ghost predicate CountOk<V>(st: State<V>) {
    st.heap.nodeNum + Sum(Weights(st.threads)) + 2 == |st.heap.order|
  }

  ghost predicate Inv<V>(st: State<V>) {
    HeapOk(st.heap) && ThreadsOk(st) && Exclusive(st.threads) && CountOk(st)
  }

  // ---- Steps only add ----

  /** Keys and heights are for ever, listed nodes stay listed, and nobody touches a private node. */
  ghost predicate Extends<V>(h: Heap<V>, h': Heap<V>) {
    && |h.nodes| <= |h'.nodes|
    && (forall id: nat | id < |h.nodes| :: h'.nodes[id].key == h.nodes[id].key && |h'.nodes[id].nexts| == |h.nodes[id].nexts|)
    && (forall id: nat | id < |h.nodes| && id !in h.order :: h'.nodes[id] == h.nodes[id])
    && (forall id | id in h.order :: id in h'.order)
  }

  lemma ThreadStays<V>(h: Heap<V>, h': Heap<V>, pc: Pc<V>)
    requires ThreadOk(h, pc) && Extends(h, h')
    requires pc.LinkBottom? ==> pc.node !in h'.order
    ensures ThreadOk(h', pc)
  {
    if pc.Find? && pc.found {
      var id: nat :| Listed(h, id, 0) && h.nodes[id].key == pc.key;
      assert Listed(h', id, 0);
    }
  }

  /** The place of a listed node. */
  lemma PlaceAt(order: seq<nat>, i: nat, node: nat)
    requires i < |order| && forall k | 0 <= k < i :: order[k] != order[i]
    ensures Place(order, order[i], node) == order[..i + 1] + [node] + order[i + 1..]
  {
    if i == 0 {
      assert order[..1] == [order[0]];
    } else {
      PlaceAt(order[1..], i - 1, node);
      assert order[1..][..i] == order[1..i + 1];
      assert [order[0]] + order[1..i + 1] == order[..i + 1];
    }
  }

  // ---- Changes of the heap ----

  lemma AppendKeeps<V>(h: Heap<V>, node: Node<V>)
    requires HeapOk(h)
    ensures HeapOk(h.(nodes := h.nodes + [node])) && Extends(h, h.(nodes := h.nodes + [node]))
  {
    var h' := h.(nodes := h.nodes + [node]);
    assert forall id: nat | id < |h.nodes| :: h'.nodes[id] == h.nodes[id];
    forall id: nat, level: nat | Listed(h', id, level) && id != TAIL
      ensures Leads(h', h'.nodes[id].nexts[level].addr, level, h'.nodes[id].key)
    {
      assert Listed(h, id, level);
      assert Leads(h, h.nodes[id].nexts[level].addr, level, h.nodes[id].key);
    }
  }

  lemma SetHandleKeeps<V>(h: Heap<V>, id: nat, handle: Option<V>)
    requires HeapOk(h) && NodeOk(h, id)
    ensures HeapOk(SetHandle(h, id, handle)) && Extends(h, SetHandle(h, id, handle))
  {
    var h' := SetHandle(h, id, handle);
    forall i: nat, level: nat | Listed(h', i, level) && i != TAIL
      ensures Leads(h', h'.nodes[i].nexts[level].addr, level, h'.nodes[i].key)
    {
      assert Listed(h, i, level);
      assert Leads(h, h.nodes[i].nexts[level].addr, level, h.nodes[i].key);
    }
  }

  lemma SetLinkOrdered<V>(h: Heap<V>, id: nat, level: nat, w: Tag)
    requires Ordered(h) && Listed(h, id, level) && id != TAIL
    requires level == 0 ==> w.addr == h.nodes[id].nexts[0].addr
    ensures Ordered(SetLink(h, id, level, w)) && Extends(h, SetLink(h, id, level, w))
  {
    var h' := SetLink(h, id, level, w);
    assert forall i: nat | i < |h.nodes| && 0 < |h.nodes[i].nexts| :: h'.nodes[i].nexts[0].addr == h.nodes[i].nexts[0].addr;
  }

  /** A listed node may be given any lawful link above level 0, and the same link with other bits on level 0. */
  lemma SetLinkKeeps<V>(h: Heap<V>, id: nat, level: nat, w: Tag)
    requires HeapOk(h) && Listed(h, id, level) && id != TAIL
    requires Leads(h, w.addr, level, h.nodes[id].key)
    requires level == 0 ==> w.addr == h.nodes[id].nexts[0].addr
    ensures HeapOk(SetLink(h, id, level, w)) && Extends(h, SetLink(h, id, level, w))
  {
    hide Ordered;
    SetLinkOrdered(h, id, level, w);
    var h' := SetLink(h, id, level, w);
    forall i: nat, l: nat | Listed(h', i, l) && i != TAIL
      ensures Leads(h', h'.nodes[i].nexts[l].addr, l, h'.nodes[i].key)
    {
      assert Listed(h, i, l);
      assert Leads(h, h.nodes[i].nexts[l].addr, l, h.nodes[i].key);
    }
  }

  ghost function Placed(order: seq<nat>, i: nat, node: nat): (r: seq<nat>)
    requires i < |order|
    ensures |r| == |order| + 1
    ensures forall a: nat | a <= |order| :: r[a] == if a <= i then order[a] else if a == i + 1 then node else order[a - 1]
    ensures forall id: nat :: id in r <==> id in order || id == node
  {
    assert order == order[..i + 1] + order[i + 1..];
    order[..i + 1] + [node] + order[i + 1..]
  }

  /** The heap after the node is linked behind position `i` of level 0. */
  ghost function BottomLinked<V>(h: Heap<V>, i: nat, node: nat, w: Tag): Heap<V>
    requires i < |h.order| && HasLink(h.nodes, h.order[i], 0)
  {
    SetLink(h, h.order[i], 0, w).(order := Placed(h.order, i, node))
  }

  ghost predicate FitsBehind<V>(h: Heap<V>, i: nat, node: nat) {
    && i + 1 < |h.order| && HasLink(h.nodes, h.order[i], 0)
    && node < |h.nodes| && node !in h.order && 0 < |h.nodes[node].nexts| <= TOP + 1
    && h.nodes[h.order[i]].key < h.nodes[node].key
    && h.nodes[node].nexts[0].addr == h.order[i + 1]
    && forall l: nat | l < |h.nodes[node].nexts| :: Leads(h, h.nodes[node].nexts[l].addr, l, h.nodes[node].key)
  }

  lemma PlacedAscends<V>(nodes: seq<Node<V>>, order: seq<nat>, i: nat, node: nat)
    requires InRange(nodes, order) && Ascending(nodes, order) && i + 1 < |order|
    requires node < |nodes| && 0 < |nodes[node].nexts| <= TOP + 1
    requires nodes[order[i]].key < nodes[node].key < nodes[order[i + 1]].key
    ensures InRange(nodes, Placed(order, i, node)) && Ascending(nodes, Placed(order, i, node))
  {
    var r := Placed(order, i, node);
    forall a: nat | a < |r| ensures r[a] < |nodes| && 0 < |nodes[r[a]].nexts| <= TOP + 1 {
      assert r[a] == node || r[a] == order[if a <= i then a else a - 1];
    }
    forall a: nat, b: nat | a < b < |r| ensures nodes[r[a]].key < nodes[r[b]].key {
      if a == i + 1 {
        assert r[b] == order[b - 1];
        assert b == i + 2 || nodes[order[i + 1]].key < nodes[order[b - 1]].key;
      } else if b == i + 1 {
        assert r[a] == order[a];
        assert a == i || nodes[order[a]].key < nodes[order[i]].key;
      } else {
        assert r[a] == order[if a <= i then a else a - 1] && r[b] == order[if b <= i then b else b - 1];
      }
    }
  }

  lemma PlacedChains<V>(h: Heap<V>, i: nat, node: nat, w: Tag)
    requires Ordered(h) && FitsBehind(h, i, node) && w.addr == node
    requires InRange(BottomLinked(h, i, node, w).nodes, BottomLinked(h, i, node, w).order)
    ensures Chained(BottomLinked(h, i, node, w).nodes, BottomLinked(h, i, node, w).order)
  {
    var h' := BottomLinked(h, i, node, w);
    var r := h'.order;
    forall a: nat | a < |r| - 1 ensures h'.nodes[r[a]].nexts[0].addr == r[a + 1] {
      if a < i {
        assert h.nodes[h.order[a]].key < h.nodes[h.order[i]].key;
        assert r[a] == h.order[a] && r[a + 1] == h.order[a + 1];
      } else if a > i + 1 {
        assert h.nodes[h.order[i]].key < h.nodes[h.order[a - 1]].key;
        assert r[a] == h.order[a - 1] && r[a + 1] == h.order[a];
      }
    }
  }

  /** Order and ranges depend on keys and heights only. */
  lemma SameKeysAscend<V>(nodes: seq<Node<V>>, nodes': seq<Node<V>>, order: seq<nat>)
    requires InRange(nodes, order) && Ascending(nodes, order) && |nodes'| == |nodes|
    requires forall id: nat | id < |nodes| :: nodes'[id].key == nodes[id].key && |nodes'[id].nexts| == |nodes[id].nexts|
    ensures InRange(nodes', order) && Ascending(nodes', order)
  {
  }

  lemma BottomAscends<V>(h: Heap<V>, i: nat, node: nat, w: Tag)
    requires Ordered(h) && FitsBehind(h, i, node)
    ensures InRange(BottomLinked(h, i, node, w).nodes, BottomLinked(h, i, node, w).order)
    ensures Ascending(BottomLinked(h, i, node, w).nodes, BottomLinked(h, i, node, w).order)
  {
    hide Placed;
    assert Leads(h, h.order[i + 1], 0, h.nodes[node].key);
    PlacedAscends(h.nodes, h.order, i, node);
    SameKeysAscend(h.nodes, BottomLinked(h, i, node, w).nodes, Placed(h.order, i, node));
  }

  lemma BottomOrdered<V>(h: Heap<V>, i: nat, node: nat, w: Tag)
    requires Ordered(h) && FitsBehind(h, i, node) && w.addr == node
    ensures Ordered(BottomLinked(h, i, node, w))
  {
    BottomAscends(h, i, node, w);
    PlacedChains(h, i, node, w);
    assert h.order[i] != TAIL by {
      assert h.nodes[h.order[i]].key < h.nodes[h.order[|h.order| - 1]].key;
    }
    hide Ascending, Chained, InRange, Leads;
  }

  lemma BottomExtends<V>(h: Heap<V>, i: nat, node: nat, w: Tag)
    requires FitsBehind(h, i, node)
    ensures Extends(h, BottomLinked(h, i, node, w))
  {
  }

  /** Linking a prepared private node into level 0 keeps every level in order. */
  lemma BottomKeeps<V>(h: Heap<V>, i: nat, node: nat, w: Tag)
    requires HeapOk(h) && FitsBehind(h, i, node) && w.addr == node
    ensures HeapOk(BottomLinked(h, i, node, w)) && Extends(h, BottomLinked(h, i, node, w))
  {
    BottomOrdered(h, i, node, w);
    BottomExtends(h, i, node, w);
    hide Ordered, LinksOk, FitsBehind, Extends;
    BottomLinks(h, i, node, w);
  }

  lemma BottomLinks<V>(h: Heap<V>, i: nat, node: nat, w: Tag)
    requires LinksOk(h) && FitsBehind(h, i, node) && w.addr == node
    requires Extends(h, BottomLinked(h, i, node, w))
    ensures LinksOk(BottomLinked(h, i, node, w))
  {
    var h' := BottomLinked(h, i, node, w);
    forall id: nat, l: nat | Listed(h', id, l) && id != TAIL
      ensures Leads(h', h'.nodes[id].nexts[l].addr, l, h'.nodes[id].key)
    {
      if id != node {
        assert Listed(h, id, l);
      }
      assert Leads(h, h.nodes[id].nexts[l].addr, l, h.nodes[id].key);
    }
  }

  // ---- Searches ----

  /** The place of a listed node; nodes before it have smaller keys. */
  lemma Position<V>(h: Heap<V>, id: nat) returns (i: nat)
    requires Ordered(h) && id in h.order
    ensures i < |h.order| && h.order[i] == id
    ensures forall k: nat | k < i :: h.nodes[h.order[k]].key < h.nodes[id].key && h.order[k] != id
  {
    i :| 0 <= i < |h.order| && h.order[i] == id;
  }

  lemma OrderReflects<V>(h: Heap<V>, i: nat, j: nat)
    requires Ordered(h) && i < |h.order| && j < |h.order|
    ensures i < j <==> h.nodes[h.order[i]].key < h.nodes[h.order[j]].key
  {
    if j < i {
      assert h.nodes[h.order[j]].key < h.nodes[h.order[i]].key;
    }
  }

  /** Where level 0 steps over `key`, it meets the key exactly if the list has it at all. */
  lemma BottomIsExact<V>(h: Heap<V>, pred: nat, key: int)
    requires HeapOk(h) && PredOk(h, pred, 0, key) && IsKey(key)
    requires SuccOk(h, h.nodes[pred].nexts[0].addr, 0, key)
    ensures HasKey(h, key) <==> h.nodes[h.nodes[pred].nexts[0].addr].key == key
  {
    var succ := h.nodes[pred].nexts[0].addr;
    var i := Position(h, pred);
    assert pred != TAIL && h.order[i + 1] == succ;
    if HasKey(h, key) {
      var id: nat :| Listed(h, id, 0) && h.nodes[id].key == key;
      var j := Position(h, id);
      OrderReflects(h, i, j);
      OrderReflects(h, i + 1, j);
    }
  }

  lemma FindMoves<V>(h: Heap<V>, pc: Pc<V>)
    requires HeapOk(h) && pc.Find? && ThreadOk(h, pc)
    ensures var w := h.nodes[pc.pred].nexts[pc.level]; Leads(h, w.addr, pc.level, h.nodes[pc.pred].key)
    ensures ThreadOk(h, FindStep(pc, h.nodes))
  {
    var w := h.nodes[pc.pred].nexts[pc.level];
    assert Leads(h, w.addr, pc.level, h.nodes[pc.pred].key);
    if pc.key <= h.nodes[w.addr].key {
      assert h.nodes[w.addr].key == pc.key ==> Listed(h, w.addr, 0);
      if pc.level == 0 {
        FindEnds(h, pc);
      }
    }
  }

  /** The two ways on from a load: over a smaller key, or down a level. */
  lemma FindOverOrDown<V>(h: Heap<V>, pc: Pc<V>)
    requires HeapOk(h) && pc.Find? && ThreadOk(h, pc)
    ensures HasLink(h.nodes, pc.pred, pc.level) && h.nodes[pc.pred].key < pc.key
    ensures |pc.trail.preds| == |pc.trail.succs| == TOP + 1
    ensures var w := h.nodes[pc.pred].nexts[pc.level];
            && Leads(h, w.addr, pc.level, h.nodes[pc.pred].key)
            && (h.nodes[w.addr].key < pc.key ==> ThreadOk(h, pc.(pred := w.addr)))
            && (pc.key <= h.nodes[w.addr].key ==> SuccOk(h, w.addr, pc.level, pc.key))
            && (pc.key <= h.nodes[w.addr].key && 0 < pc.level ==>
                ThreadOk(h, pc.(level := pc.level - 1, found := pc.found || h.nodes[w.addr].key == pc.key,
                                trail := Trail(pc.trail.preds[pc.level := pc.pred], pc.trail.succs[pc.level := w]))))
  {
    FindMoves(h, pc);
  }

  /** The last step of a search knows whether the list has the key at that moment. */
  lemma FindEnds<V>(h: Heap<V>, pc: Pc<V>)
    requires HeapOk(h) && pc.Find? && ThreadOk(h, pc) && pc.level == 0
    requires SuccOk(h, h.nodes[pc.pred].nexts[0].addr, 0, pc.key)
    ensures var w := h.nodes[pc.pred].nexts[0];
            var trail := Trail(pc.trail.preds[0 := pc.pred], pc.trail.succs[0 := w]);
            var found := pc.found || h.nodes[w.addr].key == pc.key;
            && (found <==> HasKey(h, pc.key)) && (found <==> h.nodes[w.addr].key == pc.key)
            && TrailOk(h, trail, pc.key, 0)
            && ThreadOk(h, Found(pc.goal, pc.key, found, trail))
  {
    BottomIsExact(h, pc.pred, pc.key);
    var w := h.nodes[pc.pred].nexts[0];
    var trail := Trail(pc.trail.preds[0 := pc.pred], pc.trail.succs[0 := w]);
    assert TrailOk(h, trail, pc.key, 0);
    if !HasKey(h, pc.key) {
      forall l: nat | l <= TOP ensures Leads(h, trail.succs[l].addr, l, pc.key) {
        assert SuccOk(h, trail.succs[l].addr, l, pc.key);
        assert Listed(h, trail.succs[l].addr, 0);
      }
    }
  }

  // ---- Every step keeps the invariant ----

  /** Only a successful link on level 0 lists a node, and it lists its own. */
  ghost predicate Grows<V>(h: Heap<V>, h': Heap<V>, pc: Pc<V>) {
    forall id | id in h'.order :: id in h.order || (pc.LinkBottom? && id == pc.node)
  }

  ghost predicate MoverOk<V>(h: Heap<V>, pc: Pc<V>, f: Effect<V>) {
    && HeapOk(f.heap) && Extends(h, f.heap) && Grows(h, f.heap, pc) && ThreadOk(f.heap, f.pc)
    && (f.pc.LinkBottom? ==> f.pc.node == |h.nodes|)
  }

  lemma NewNodeMoves<V>(h: Heap<V>, pc: Pc<V>, m: Move<V>)
    requires HeapOk(h) && pc.NewNode? && ThreadOk(h, pc)
    ensures MoverOk(h, pc, Exec(pc, h, m))
  {
    hide Ordered, LinksOk;
    var top := if m.top <= TOP then m.top else TOP;
    var node := Node(pc.key, seq(top + 1, l requires 0 <= l <= top => Tag(pc.trail.succs[l].addr, 0, false)), pc.handle);
    AppendKeeps(h, node);
    var h' := h.(nodes := h.nodes + [node]);
    ListedInRange(h);
    ThreadStays(h, h', pc);
    assert h'.nodes[|h.nodes|] == node;
  }

  lemma ListedInRange<V>(h: Heap<V>)
    requires Ordered(h)
    ensures forall id | id in h.order :: id < |h.nodes|
    ensures |h.nodes| !in h.order
  {
  }

  /** A successful compare-and-swap at the bottom finds the new node its place in `order`. */
  lemma BottomFits<V>(h: Heap<V>, pc: Pc<V>) returns (i: nat)
    requires Ordered(h) && pc.LinkBottom? && ThreadOk(h, pc)
    requires h.nodes[pc.trail.preds[0]].nexts[0] == pc.trail.succs[0]
    ensures FitsBehind(h, i, pc.node) && h.order[i] == pc.trail.preds[0]
    ensures Place(h.order, pc.trail.preds[0], pc.node) == Placed(h.order, i, pc.node)
  {
    hide TrailOk;
    BottomPred(h, pc);
    i := Position(h, pc.trail.preds[0]);
    PlaceAt(h.order, i, pc.node);
  }

  lemma BottomPred<V>(h: Heap<V>, pc: Pc<V>)
    requires Ordered(h) && pc.LinkBottom? && ThreadOk(h, pc)
    ensures |pc.trail.preds| == |pc.trail.succs| == TOP + 1
    ensures PredOk(h, pc.trail.preds[0], 0, pc.key) && pc.trail.preds[0] != TAIL
    ensures pc.node < |h.nodes|
  {
    hide Chained, Ascending;
    assert PredOk(h, pc.trail.preds[0], 0, pc.key);
  }

  lemma BottomSucceeds<V>(h: Heap<V>, pc: Pc<V>, i: nat, m: Move<V>)
    requires HeapOk(h) && pc.LinkBottom? && ThreadOk(h, pc)
    requires |pc.trail.preds| == |pc.trail.succs| == TOP + 1
    requires FitsBehind(h, i, pc.node) && h.order[i] == pc.trail.preds[0]
    requires Place(h.order, pc.trail.preds[0], pc.node) == Placed(h.order, i, pc.node)
    requires h.nodes[pc.trail.preds[0]].nexts[0] == pc.trail.succs[0]
    ensures MoverOk(h, pc, Exec(pc, h, m))
    ensures Exec(pc, h, m).heap == BottomLinked(h, i, pc.node, Linked(pc.trail.succs[0], pc.node))
  {
    hide Ordered, LinksOk, TrailOk, Place, Leads;
    var w := Linked(pc.trail.succs[0], pc.node);
    BottomKeeps(h, i, pc.node, w);
    var h' := BottomLinked(h, i, pc.node, w);
    assert h' == Exec(pc, h, m).heap;
    TrailStays(h, h', pc.trail, pc.key);
    assert Listed(h', pc.node, 0);
  }

  lemma LinkBottomMoves<V>(h: Heap<V>, pc: Pc<V>, m: Move<V>)
    requires HeapOk(h) && pc.LinkBottom? && ThreadOk(h, pc)
    ensures MoverOk(h, pc, Exec(pc, h, m))
  {
    BottomPred(h, pc);
    hide Ordered, LinksOk, TrailOk;
    if h.nodes[pc.trail.preds[0]].nexts[0] == pc.trail.succs[0] {
      var i := BottomFits(h, pc);
      BottomSucceeds(h, pc, i, m);
    } else {
      StartFindOk(h, ForInsert(None), pc.key);
    }
  }

  lemma TrailStays<V>(h: Heap<V>, h': Heap<V>, trail: Trail, key: int)
    requires TrailOk(h, trail, key, 0) && Extends(h, h')
    ensures TrailOk(h', trail, key, 0)
  {
  }

  lemma StartFindOk<V>(h: Heap<V>, goal: Goal<V>, key: int)
    requires HeapOk(h) && IsKey(key)
    requires goal.ForRelink? ==> LinkingOk(h, goal.node, goal.level, key)
    ensures ThreadOk(h, StartFind(goal, key))
  {
    hide LinksOk;
  }

  lemma UpperPred<V>(h: Heap<V>, pc: Pc<V>)
    requires Ordered(h) && pc.LinkUpper? && ThreadOk(h, pc)
    ensures pc.level <= TOP && |pc.trail.preds| == |pc.trail.succs| == TOP + 1
    ensures PredOk(h, pc.trail.preds[pc.level], pc.level, pc.key)
    ensures Leads(h, pc.node, pc.level, h.nodes[pc.trail.preds[pc.level]].key)
  {
    hide Chained, Ascending;
    var i := pc.node;
    assert |h.nodes[pc.node].nexts| <= TOP + 1;
    assert PredOk(h, pc.trail.preds[pc.level], pc.level, pc.key);
  }

  lemma AfterUpper<V>(h: Heap<V>, h': Heap<V>, pc: Pc<V>)
    requires HeapOk(h) && pc.LinkUpper? && ThreadOk(h, pc) && Extends(h, h')
    ensures ThreadOk(h', AfterLevel(pc.key, pc.node, pc.level, h.nodes, pc.trail))
  {
    hide HeapOk, TrailOk;
    TrailStays(h, h', pc.trail, pc.key);
    assert Listed(h', pc.node, 0);
  }

  lemma UpperSucceeds<V>(h: Heap<V>, pc: Pc<V>, m: Move<V>)
    requires HeapOk(h) && pc.LinkUpper? && ThreadOk(h, pc)
    requires pc.level <= TOP && |pc.trail.preds| == |pc.trail.succs| == TOP + 1
    requires PredOk(h, pc.trail.preds[pc.level], pc.level, pc.key)
    requires Leads(h, pc.node, pc.level, h.nodes[pc.trail.preds[pc.level]].key)
    requires h.nodes[pc.trail.preds[pc.level]].nexts[pc.level] == pc.trail.succs[pc.level] && !m.spurious
    ensures MoverOk(h, pc, Exec(pc, h, m))
  {
    var pred := pc.trail.preds[pc.level];
    var w := Linked(pc.trail.succs[pc.level], pc.node);
    assert HasLink(h.nodes, pred, pc.level) && pc.node < |h.nodes| && pred != TAIL && Listed(h, pred, pc.level);
    hide Ordered, LinksOk, TrailOk, Leads, Extends, ThreadOk, Listed;
    SetLinkKeeps(h, pred, pc.level, w);
    AfterUpper(h, SetLink(h, pred, pc.level, w), pc);
    assert Exec(pc, h, m) == Effect(AfterLevel(pc.key, pc.node, pc.level, h.nodes, pc.trail), SetLink(h, pred, pc.level, w));
  }

  lemma LinkUpperMoves<V>(h: Heap<V>, pc: Pc<V>, m: Move<V>)
    requires HeapOk(h) && pc.LinkUpper? && ThreadOk(h, pc)
    ensures MoverOk(h, pc, Exec(pc, h, m))
  {
    UpperPred(h, pc);
    hide Ordered, LinksOk, TrailOk;
    if h.nodes[pc.trail.preds[pc.level]].nexts[pc.level] == pc.trail.succs[pc.level] && !m.spurious {
      hide MoverOk, ThreadOk, Leads, PredOk;
      UpperSucceeds(h, pc, m);
    } else {
      StartFindOk(h, ForRelink(pc.node, pc.level), pc.key);
      hide Leads, StartFind;
    }
  }

  lemma CountNodeMoves<V>(h: Heap<V>, pc: Pc<V>, m: Move<V>)
    requires HeapOk(h) && pc.CountNode? && ThreadOk(h, pc)
    ensures MoverOk(h, pc, Exec(pc, h, m))
  {
    forall id: nat, level: nat | Listed(h, id, level) && id != TAIL
      ensures Leads(h, h.nodes[id].nexts[level].addr, level, h.nodes[id].key)
    {
    }
  }

  lemma MarkSwapMoves<V>(h: Heap<V>, pc: Pc<V>, m: Move<V>)
    requires HeapOk(h) && pc.MarkSwap? && ThreadOk(h, pc)
    ensures MoverOk(h, pc, Exec(pc, h, m))
  {
    var w := h.nodes[pc.node].nexts[0];
    assert pc.node != TAIL;
    assert Leads(h, w.addr, 0, h.nodes[pc.node].key);
    if w == pc.expected && !m.spurious {
      SetLinkKeeps(h, pc.node, 0, AddVersion(Tag(w.addr, w.version, true), 1));
    }
  }

  lemma MoverKeeps<V>(h: Heap<V>, pc: Pc<V>, m: Move<V>)
    requires HeapOk(h) && ThreadOk(h, pc)
    ensures MoverOk(h, pc, Exec(pc, h, m))
  {
    hide Ordered, LinksOk;
    match pc
    case Idle(_) => StartMoves(h, pc, m);
    case Find(_, _, _, _, _, _) => FindMoves(h, pc);
    case NewNode(_, _, _) => NewNodeMoves(h, pc, m);
    case LinkBottom(_, _, _) => LinkBottomMoves(h, pc, m);
    case LinkUpper(_, _, _, _) => LinkUpperMoves(h, pc, m);
    case CountNode(_) => CountNodeMoves(h, pc, m);
    case MarkSwap(_, _) => MarkSwapMoves(h, pc, m);
    case UpdateHandle(node, handle) => SetHandleKeeps(h, node, handle);
    case MarkHandle(node) => SetHandleKeeps(h, node, None);
    case _ =>
  }

  lemma StartMoves<V>(h: Heap<V>, pc: Pc<V>, m: Move<V>)
    requires HeapOk(h) && pc.Idle?
    ensures MoverOk(h, pc, Exec(pc, h, m))
  {
    if m.op.MarkDeleted? && m.op.node in h.order && m.op.node != HEAD && m.op.node != TAIL {
      InnerNodeOk(h, m.op.node);
    }
    hide HeapOk, NodeOk, PredOk, SuccOk, TrailOk;
    match m.op
    case Get(key) => if IsKey(key) { StartFindOk<V>(h, ForGet, key); }
    case Insert(key, handle) => if IsKey(key) { StartFindOk(h, ForInsert(handle), key); }
    case MarkDeleted(node) =>
    case Rest =>
  }

  /** A listed node that is not a sentinel has a key between theirs. */
  lemma InnerNodeOk<V>(h: Heap<V>, node: nat)
    requires Ordered(h) && node in h.order && node != HEAD && node != TAIL
    ensures NodeOk(h, node)
  {
    var i := Position(h, node);
    OrderReflects(h, 0, i);
    OrderReflects(h, i, |h.order| - 1);
  }

  lemma OthersKeep<V>(st: State<V>, m: Move<V>, other: nat)
    requires ThreadsOk(st) && Exclusive(st.threads) && Acts(st, m) && other < |st.threads| && other != m.id
    requires MoverOk(st.heap, st.threads[m.id], Target(st, m))
    ensures ThreadOk(Target(st, m).heap, st.threads[other])
    ensures st.threads[other].LinkBottom? ==> st.threads[other].node < |st.heap.nodes|
  {
    hide Exec, HeapOk;
    assert ThreadOk(st.heap, st.threads[other]);
    ThreadStays(st.heap, Target(st, m).heap, st.threads[other]);
  }

  /** The counter moves with the inserts that finish, level 0 with those that link. */
  lemma CountKept<V>(st: State<V>, m: Move<V>)
    requires HeapOk(st.heap) && ThreadsOk(st) && CountOk(st) && Acts(st, m)
    ensures CountOk(Step(st, m))
  {
    var pc := st.threads[m.id];
    var f := Target(st, m);
    var x := if Uncounted(f.pc) then 1 else 0;
    assert Weights(st.threads[m.id := f.pc]) == Weights(st.threads)[m.id := x];
    SumUpdate(Weights(st.threads), m.id, x);
    assert ThreadOk(st.heap, pc);
    hide HeapOk, ThreadOk, Exec;
    CountDelta(st.heap, pc, m);
  }

  lemma CountDelta<V>(h: Heap<V>, pc: Pc<V>, m: Move<V>)
    requires HeapOk(h) && ThreadOk(h, pc)
    ensures var f := Exec(pc, h, m);
            |f.heap.order| - |h.order| == f.heap.nodeNum - h.nodeNum + (if Uncounted(f.pc) then 1 else 0) - (if Uncounted(pc) then 1 else 0)
  {
    hide Ordered, LinksOk, TrailOk;
    if pc.LinkBottom? {
      BottomDelta(h, pc, m);
    } else if pc.LinkUpper? {
      UpperPred(h, pc);
    } else if pc.Find? {
      FindMoves(h, pc);
    }
  }

  lemma BottomDelta<V>(h: Heap<V>, pc: Pc<V>, m: Move<V>)
    requires HeapOk(h) && pc.LinkBottom? && ThreadOk(h, pc)
    ensures var f := Exec(pc, h, m);
            f.heap.nodeNum == h.nodeNum && |f.heap.order| - |h.order| == if Uncounted(f.pc) then 1 else 0
  {
    hide Ordered, LinksOk, ThreadOk, Place, FitsBehind;
    BottomPred(h, pc);
    if h.nodes[pc.trail.preds[0]].nexts[0] == pc.trail.succs[0] {
      var i := BottomFits(h, pc);
    }
  }

  lemma StepKeepsInv<V>(st: State<V>, m: Move<V>)
    requires Inv(st)
    ensures Inv(Step(st, m))
  {
    hide HeapOk, Exec, CountOk;
    if Acts(st, m) {
      MoverKeeps(st.heap, st.threads[m.id], m);
      CountKept(st, m);
      var st' := Step(st, m);
      forall id: nat | id < |st'.threads| ensures ThreadOk(st'.heap, st'.threads[id]) {
        if id != m.id {
          OthersKeep(st, m, id);
        }
      }
      forall i: nat, j: nat | i < j < |st'.threads| && st'.threads[i].LinkBottom? && st'.threads[j].LinkBottom?
        ensures st'.threads[i].node != st'.threads[j].node
      {
        if i == m.id {
          OthersKeep(st, m, j);
        } else if j == m.id {
          OthersKeep(st, m, i);
        }
      }
    }
  }

  lemma InitialInv<V>(n: nat)
    ensures Inv(Initial<V>(n))
  {
    var st := Initial<V>(n);
    SumZero(Weights(st.threads));
    assert Ordered(st.heap);
  }

  lemma {:induction false} RunKeepsInv<V>(st: State<V>, moves: seq<Move<V>>)
    requires Inv(st)
    ensures Inv(Run(st, moves))
  {
    hide Inv, Step;
    if moves != [] {
      RunKeepsInv(st, moves[..|moves| - 1]);
      StepKeepsInv(Run(st, moves[..|moves| - 1]), moves[|moves| - 1]);
    }
  }
}
