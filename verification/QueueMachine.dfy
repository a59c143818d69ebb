/**
 The bounded multi-producer, multi-consumer queue as an interleaving of atomic steps.

 Ticket `p` is the p-th push and the p-th pop; it lives in slot `p % capacity`. A slot whose
 sequence number is `p` waits for the producer of ticket `p`, one with `p + 1` for its consumer.
 */
module QueueMachine {
  import opened Options

  datatype Node<T> = Node(seqNo: int, data: T)

  datatype Output<+T> = Nothing | Pushed(ok: bool) | Popped(value: Option<T>)

  /** Program counters, named after the next shared access of the thread. */
  datatype Pc<T> =
    | Ready(out: Output<T>)
    | PushLoad(v: T)
    | PushSeq(v: T, pos: nat)
    | PushCas(v: T, pos: nat)
    | PushWrite(v: T, pos: nat)
    | PushPublish(v: T, pos: nat)
    | PopLoad
    | PopSeq(pos: nat)
    | PopCas(pos: nat)
    | PopRead(pos: nat)
    | PopRecycle(pos: nat, v: T)

  datatype Op<+T> = Rest | StartPush(v: T) | StartPop

  /** Thread `id` takes a step; `spurious` lets a weak compare-and-swap fail. */
  datatype Move<+T> = Move(id: nat, op: Op<T>, spurious: bool)

  /** What one step sees and leaves: the slot of its position, and the two ends. */
  datatype View<T> = View(node: Node<T>, head: nat, tail: nat)

  datatype Effect<T> = Effect(pc: Pc<T>, now: View<T>)

  ghost function Exec<T>(capacity: nat, pc: Pc<T>, see: View<T>, m: Move<T>): Effect<T> {
    match pc
    case Ready(_) =>
      (match m.op
       case Rest => Effect(pc, see)
       case StartPush(v) => Effect(PushLoad(v), see)
       case StartPop => Effect(PopLoad, see))
    case PushLoad(v) => Effect(PushSeq(v, see.head), see)
    case PushSeq(v, pos) =>
      var diff := see.node.seqNo - pos;
      Effect(if diff == 0 then PushCas(v, pos) else if diff < 0 then Ready(Pushed(false)) else PushLoad(v), see)
    case PushCas(v, pos) =>
      if see.head == pos && !m.spurious then Effect(PushWrite(v, pos), see.(head := pos + 1))
      else Effect(PushSeq(v, see.head), see)
    case PushWrite(v, pos) => Effect(PushPublish(v, pos), see.(node := see.node.(data := v)))
    case PushPublish(v, pos) => Effect(Ready(Pushed(true)), see.(node := see.node.(seqNo := pos + 1)))
    case PopLoad => Effect(PopSeq(see.tail), see)
    case PopSeq(pos) =>
      var diff := see.node.seqNo - (pos + 1);
      Effect(if diff == 0 then PopCas(pos) else if diff < 0 then Ready(Popped(None)) else PopLoad, see)
    case PopCas(pos) =>
      if see.tail == pos && !m.spurious then Effect(PopRead(pos), see.(tail := pos + 1))
      else Effect(PopSeq(see.tail), see)
    case PopRead(pos) => Effect(PopRecycle(pos, see.node.data), see)
    case PopRecycle(pos, v) => Effect(Ready(Popped(Some(v))), see.(node := see.node.(seqNo := pos + capacity)))
  }

  /** Steps before a position is known access no slot; they are given slot 0 and leave it alone. */
  ghost function Position<T>(pc: Pc<T>): nat {
    match pc
    case Ready(_) => 0
    case PushLoad(_) => 0
    case PopLoad => 0
    case PushSeq(_, pos) => pos
    case PushCas(_, pos) => pos
    case PushWrite(_, pos) => pos
    case PushPublish(_, pos) => pos
    case PopSeq(pos) => pos
    case PopCas(pos) => pos
    case PopRead(pos) => pos
    case PopRecycle(pos, _) => pos
  }

  /**
   `log[p]` is the value pushed with ticket `p`, appended when the producer wins the head;
   `outs[p]` the value its consumer read.
   */
  datatype State<T> = State(ring: seq<Node<T>>, head: nat, tail: nat, threads: seq<Pc<T>>, log: seq<T>, outs: map<nat, T>) {
    ghost function At(pos: nat): Node<T>
      requires |ring| > 0
    {
      ring[pos % |ring|]
    }

    /** The queue the program implements: pushed and not yet popped. */
    ghost function Abstract(): seq<T>
      requires tail <= head == |log|
    {
      log[tail..]
    }
  }

  ghost function Step<T>(st: State<T>, m: Move<T>): (st': State<T>)
    requires |st.ring| > 0
    ensures |st'.ring| == |st.ring| && |st'.threads| == |st.threads|
  {
    if m.id >= |st.threads| then st else
      var pc := st.threads[m.id];
      var i := Position(pc) % |st.ring|;
      var f := Exec(|st.ring|, pc, View(st.ring[i], st.head, st.tail), m);
      State(st.ring[i := f.now.node], f.now.head, f.now.tail, st.threads[m.id := f.pc],
            if f.now.head > st.head && pc.PushCas? then st.log + [pc.v] else st.log,
            if pc.PopRead? then st.outs[pc.pos := st.ring[i].data] else st.outs)
  }

  ghost function Run<T>(st: State<T>, moves: seq<Move<T>>): (st': State<T>)
    requires |st.ring| > 0
    ensures |st'.ring| == |st.ring| && |st'.threads| == |st.threads|
  {
    if moves == [] then st else Step(Run(st, moves[..|moves| - 1]), moves[|moves| - 1])
  }

  /** An empty queue with `n` idle threads; slot `i` starts with sequence number `i`. */
  ghost function Initial<T>(capacity: nat, n: nat, filler: T): State<T>
    requires capacity > 0
  {
    State(seq(capacity, i => Node(i, filler)), 0, 0, seq(n, _ => Ready(Nothing)), [], map[])
  }
}
