/**
 The append-only concurrent skip list as an interleaving of atomic steps: one step per load,
 compare-and-swap or handle exchange. Nodes are named by their position in `nodes`: 0 is the head
 and 1 the tail. No link leads to the head, so a link to 0 is the null one.
 */
module AtomicSkipMachine {
  import opened Options
  import opened TaggedPtr

  const MIN_KEY: int := -0x8000_0000_0000_0000
  const MAX_KEY: int := 0x7FFF_FFFF_FFFF_FFFF
  const TOP: nat := 15
  const HEAD: nat := 0
  const TAIL: nat := 1

  datatype Node<+V> = Node(key: int, nexts: seq<Tag>, handle: Option<V>)

  datatype Output<+V> = Nothing | Got(handle: Option<V>) | Inserted(was: Option<V>) | Marked(was: Option<V>)

  /** What a search is for; `Relink` searches again after a failed link of `node` on `level`. */
  datatype Goal<+V> = ForGet | ForInsert(handle: Option<V>) | ForRelink(node: nat, level: nat)

  /** The arrays a search fills: per level the last node before the key and the word it held. */
  datatype Trail = Trail(preds: seq<nat>, succs: seq<Tag>)

  /** Program counters, named after the next shared access. */
  datatype Pc<+V> =
    | Idle(out: Output<V>)
    | Find(goal: Goal<V>, key: int, level: nat, pred: nat, found: bool, trail: Trail)
    | GetMark(node: nat)
    | GetHandle(node: nat)
    | UpdateHandle(node: nat, handle: Option<V>)
    | NewNode(key: int, handle: Option<V>, trail: Trail)
    | LinkBottom(key: int, node: nat, trail: Trail)
    | LinkUpper(key: int, node: nat, level: nat, trail: Trail)
    | CountNode(node: nat)
    | MarkRead(node: nat)
    | MarkSwap(node: nat, expected: Tag)
    | MarkHandle(node: nat)
    | Fault

  datatype Op<+V> = Rest | Get(key: int) | Insert(key: int, handle: Option<V>) | MarkDeleted(node: nat)

  /** `top` is the level drawn if the step creates a node. */
  datatype Move<+V> = Move(id: nat, op: Op<V>, spurious: bool, top: nat)

  /** `order` names the nodes of level 0 in list order; it is history, not a field of the list. */
  datatype Heap<+V> = Heap(nodes: seq<Node<V>>, order: seq<nat>, nodeNum: int)

  datatype State<+V> = State(heap: Heap<V>, threads: seq<Pc<V>>)

  datatype Effect<+V> = Effect(pc: Pc<V>, heap: Heap<V>)

  predicate IsKey(key: int) {
    MIN_KEY < key < MAX_KEY
  }

  ghost predicate HasLink<V>(nodes: seq<Node<V>>, id: nat, level: nat) {
    id < |nodes| && level < |nodes[id].nexts|
  }

  ghost function SetLink<V>(h: Heap<V>, id: nat, level: nat, w: Tag): Heap<V>
    requires HasLink(h.nodes, id, level)
  {
    var n := h.nodes[id];
    h.(nodes := h.nodes[id := n.(nexts := n.nexts[level := w])])
  }

  ghost function SetHandle<V>(h: Heap<V>, id: nat, handle: Option<V>): Heap<V>
    requires id < |h.nodes|
  {
    h.(nodes := h.nodes[id := h.nodes[id].(handle := handle)])
  }

  ghost function StartFind<V>(goal: Goal<V>, key: int): Pc<V> {
    Find(goal, key, TOP, HEAD, false, Trail(seq(TOP + 1, _ => 0), seq(TOP + 1, _ => Tag(0, 0, false))))
  }

  /** Where a finished search leads. */
  ghost function Found<V>(goal: Goal<V>, key: int, found: bool, trail: Trail): Pc<V>
    requires 0 < |trail.succs|
  {
    match goal
    case ForGet => if found then GetMark(trail.succs[0].addr) else Idle(Got(None))
    case ForInsert(handle) => if found then UpdateHandle(trail.succs[0].addr, handle) else NewNode(key, handle, trail)
    case ForRelink(node, level) => LinkUpper(key, node, level, trail)
  }

  /** The word a successful link writes: version one up, unmarked. */
  function Linked(expected: Tag, node: nat): Tag {
    AddVersion(Tag(node, expected.version, false), 1)
  }

  ghost function AfterLevel<V>(key: int, node: nat, level: nat, nodes: seq<Node<V>>, trail: Trail): Pc<V>
    requires node < |nodes|
  {
    if level + 1 < |nodes[node].nexts| then LinkUpper(key, node, level + 1, trail) else CountNode(node)
  }

  ghost function Place(order: seq<nat>, pred: nat, node: nat): seq<nat> {
    if order == [] then []
    else if order[0] == pred then [pred, node] + order[1..]
    else [order[0]] + Place(order[1..], pred, node)
  }

  ghost function FindStep<V>(pc: Pc<V>, nodes: seq<Node<V>>): Pc<V>
    requires pc.Find?
  {
    if !HasLink(nodes, pc.pred, pc.level) then Fault else
      var w := nodes[pc.pred].nexts[pc.level];
      if w.addr >= |nodes| || |pc.trail.preds| <= pc.level || |pc.trail.succs| <= pc.level then Fault
      else if nodes[w.addr].key < pc.key then pc.(pred := w.addr)
      else
        var trail := Trail(pc.trail.preds[pc.level := pc.pred], pc.trail.succs[pc.level := w]);
        var found := pc.found || nodes[w.addr].key == pc.key;
        if pc.level > 0 then pc.(level := pc.level - 1, found := found, trail := trail)
        else Found(pc.goal, pc.key, found, trail)
  }

  ghost function StartStep<V>(pc: Pc<V>, op: Op<V>, h: Heap<V>): Pc<V> {
    match op
    case Rest => pc
    case Get(key) => if IsKey(key) then StartFind(ForGet, key) else pc
    case Insert(key, handle) =>
      if !IsKey(key) then pc else if handle.None? then Idle(Inserted(None)) else StartFind(ForInsert(handle), key)
    case MarkDeleted(node) => if node in h.order && node != HEAD && node != TAIL then MarkRead(node) else pc
  }

  ghost function Exec<V>(pc: Pc<V>, h: Heap<V>, m: Move<V>): Effect<V> {
    match pc
    case Idle(_) => Effect(StartStep(pc, m.op, h), h)
    case Find(_, _, _, _, _, _) => Effect(FindStep(pc, h.nodes), h)
    case GetMark(node) =>
      Effect(if !HasLink(h.nodes, node, 0) then Fault
             else if h.nodes[node].nexts[0].mark then Idle(Got(None)) else GetHandle(node), h)
    case GetHandle(node) =>
      Effect(if node < |h.nodes| then Idle(Got(h.nodes[node].handle)) else Fault, h)
    case UpdateHandle(node, handle) =>
      if node < |h.nodes| then Effect(Idle(Inserted(h.nodes[node].handle)), SetHandle(h, node, handle)) else Effect(Fault, h)
    case NewNode(key, handle, trail) =>
      var top := if m.top <= TOP then m.top else TOP;
      if |trail.succs| <= top then Effect(Fault, h) else
        var node := Node(key, seq(top + 1, l requires 0 <= l <= top => Tag(trail.succs[l].addr, 0, false)), handle);
        Effect(LinkBottom(key, |h.nodes|, trail), h.(nodes := h.nodes + [node]))
    case LinkBottom(key, node, trail) =>
      if trail.preds == [] || trail.succs == [] || !HasLink(h.nodes, trail.preds[0], 0) || node >= |h.nodes| then Effect(Fault, h)
      else if h.nodes[trail.preds[0]].nexts[0] == trail.succs[0] then
        var h' := SetLink(h, trail.preds[0], 0, Linked(trail.succs[0], node));
        Effect(AfterLevel(key, node, 0, h.nodes, trail), h'.(order := Place(h.order, trail.preds[0], node)))
      else
        // the node is deleted; its handle was moved into it, so the next attempt has none
        Effect(StartFind(ForInsert(None), key), h)
    case LinkUpper(key, node, level, trail) =>
      if |trail.preds| <= level || |trail.succs| <= level || !HasLink(h.nodes, trail.preds[level], level) || node >= |h.nodes| then
        Effect(Fault, h)
      else if h.nodes[trail.preds[level]].nexts[level] == trail.succs[level] && !m.spurious then
        Effect(AfterLevel(key, node, level, h.nodes, trail), SetLink(h, trail.preds[level], level, Linked(trail.succs[level], node)))
      else Effect(StartFind(ForRelink(node, level), key), h)
    case CountNode(node) => Effect(Idle(Inserted(None)), h.(nodeNum := h.nodeNum + 1))
    case MarkRead(node) =>
      Effect(if !HasLink(h.nodes, node, 0) then Fault else MarkNext(node, h.nodes[node].nexts[0]), h)
    case MarkSwap(node, expected) =>
      if !HasLink(h.nodes, node, 0) then Effect(Fault, h)
      else if h.nodes[node].nexts[0] == expected && !m.spurious then
        Effect(MarkHandle(node), SetLink(h, node, 0, AddVersion(Tag(expected.addr, expected.version, true), 1)))
      else Effect(MarkNext(node, h.nodes[node].nexts[0]), h)
    case MarkHandle(node) =>
      if node < |h.nodes| then Effect(Idle(Marked(h.nodes[node].handle)), SetHandle(h, node, None)) else Effect(Fault, h)
    case Fault => Effect(Fault, h)
  }

  ghost function MarkNext<V>(node: nat, w: Tag): Pc<V> {
    if w.mark then Idle(Marked(None)) else MarkSwap(node, w)
  }

  ghost predicate Acts<V>(st: State<V>, m: Move<V>) {
    m.id < |st.threads|
  }

  ghost function Target<V>(st: State<V>, m: Move<V>): Effect<V>
    requires Acts(st, m)
  {
    Exec(st.threads[m.id], st.heap, m)
  }

  ghost function Step<V>(st: State<V>, m: Move<V>): (st': State<V>)
    ensures |st'.threads| == |st.threads|
  {
    if !Acts(st, m) then st else State(Target(st, m).heap, st.threads[m.id := Target(st, m).pc])
  }

  ghost function Run<V>(st: State<V>, moves: seq<Move<V>>): (st': State<V>)
    ensures |st'.threads| == |st.threads|
  {
    if moves == [] then st else Step(Run(st, moves[..|moves| - 1]), moves[|moves| - 1])
  }

  /** Nobody calls MarkDeleted. */
  ghost predicate NoDeletion<V>(ms: seq<Move<V>>) {
    forall j: nat | j < |ms| :: !ms[j].op.MarkDeleted?
  }

  /** An empty list: the head leads to the tail on every level. */
  ghost function Initial<V>(n: nat): State<V> {
    var head := Node(MIN_KEY, seq(TOP + 1, _ => Tag(TAIL, 0, false)), None);
    var tail := Node(MAX_KEY, seq(TOP + 1, _ => Tag(0, 0, false)), None);
    State(Heap([head, tail], [HEAD, TAIL], 0), seq(n, _ => Idle(Nothing)))
  }
}
