/**
 The atomic shared pointer as an interleaving of atomic steps. Its value sits in a heap-allocated
 box; loads hold the box by counting themselves in the version field of the tagged word, stores
 lock it with the mark. Addresses of deleted boxes may be reused at once.
 */
module SharedPtr {
  import opened Options
  import opened Sums
  import opened TaggedPtr

  datatype Output<+V> = Nothing | Loaded(value: Option<V>) | Swapped(value: Option<V>)

  /**
   Program counters, named after the next shared access. `curr` is the word the thread expects,
   `box` and `stale` are the boxes a store brings in and takes out, `was` is the value it
   replaced. A thread that touches a box that is not allocated would be in `Fault`.
   */
  datatype Pc<V> =
    | Idle(out: Output<V>)
    | LoadRead
    | LoadAcquire(curr: Tag)
    | LoadCopy(curr: Tag)
    | LoadRelease(curr: Tag, v: V)
    | StoreAlloc(item: Option<V>)
    | StoreRead(box: nat, item: Option<V>)
    | StoreMark(box: nat, item: Option<V>, curr: Tag)
    | StoreSwap(box: nat, item: Option<V>, stale: nat)
    | StoreTake(stale: nat, was: V)
    | StoreFree(stale: nat, was: V, v: V)
    | Fault

  datatype Op<+V> = Rest | StartLoad | StartStore(item: Option<V>)

  /** `address` is what the allocator returns if the step allocates. */
  datatype Move<+V> = Move(id: nat, op: Op<V>, spurious: bool, address: nat)

  datatype State<V> = State(word: Tag, heap: map<nat, V>, threads: seq<Pc<V>>) {
    /** The register the pointer implements. */
    ghost function Value(): Option<V> {
      if word.addr in heap then Some(heap[word.addr]) else None
    }
  }

  datatype Effect<V> = Effect(pc: Pc<V>, word: Tag, heap: map<nat, V>)

  ghost function ToLoadAcquire<V>(curr: Tag): Pc<V> {
    if curr.addr == 0 then Idle(Loaded(None)) else LoadAcquire(UnMark(curr))
  }

  ghost function Exec<V>(pc: Pc<V>, word: Tag, heap: map<nat, V>, m: Move<V>): Effect<V> {
    match pc
    case Idle(_) =>
      Effect(match m.op
             case Rest => pc
             case StartLoad => LoadRead
             case StartStore(v) => StoreAlloc(v), word, heap)
    case LoadRead => Effect(ToLoadAcquire(word), word, heap)
    case LoadAcquire(curr) =>
      if word == curr && !m.spurious then Effect(LoadCopy(curr), AddVersion(curr, 1), heap)
      else Effect(ToLoadAcquire(word), word, heap)
    case LoadCopy(curr) =>
      Effect(if curr.addr in heap then LoadRelease(curr, heap[curr.addr]) else Fault, word, heap)
    case LoadRelease(curr, v) =>
      if word == UnMark(curr) && !m.spurious then Effect(Idle(Loaded(Some(v))), AddVersion(UnMark(curr), -1), heap)
      else Effect(LoadRelease(word, v), word, heap)
    case StoreAlloc(item) =>
      (match item
       case None => Effect(StoreRead(0, item), word, heap)
       case Some(v) =>
         // the allocator returns an address not in use
         if 0 < m.address < ADDRESSES && m.address !in heap then Effect(StoreRead(m.address, item), word, heap[m.address := v])
         else Effect(pc, word, heap))
    case StoreRead(box, item) => Effect(StoreMark(box, item, word), word, heap)
    case StoreMark(box, item, curr) =>
      var expected := Tag(curr.addr, 0, false);
      if word == expected && !m.spurious then Effect(StoreSwap(box, item, curr.addr), expected.(mark := true), heap)
      else Effect(StoreMark(box, item, word), word, heap)
    case StoreSwap(box, item, stale) =>
      Effect(if stale == 0 then Idle(Swapped(None)) else if stale in heap then StoreTake(stale, heap[stale]) else Fault,
             Tag(box, 0, false), heap)
    case StoreTake(stale, was) =>
      Effect(if stale in heap then StoreFree(stale, was, heap[stale]) else Fault, word, heap)
    case StoreFree(stale, was, v) =>
      if stale in heap then Effect(Idle(Swapped(Some(v))), word, heap - {stale}) else Effect(Fault, word, heap)
    case Fault => Effect(Fault, word, heap)
  }

  ghost function Step<V>(st: State<V>, m: Move<V>): (st': State<V>)
    ensures |st'.threads| == |st.threads|
  {
    if m.id >= |st.threads| then st else
      var f := Exec(st.threads[m.id], st.word, st.heap, m);
      State(f.word, f.heap, st.threads[m.id := f.pc])
  }

  ghost function Run<V>(st: State<V>, moves: seq<Move<V>>): (st': State<V>)
    ensures |st'.threads| == |st.threads|
  {
    if moves == [] then st else Step(Run(st, moves[..|moves| - 1]), moves[|moves| - 1])
  }

  /** A pointer just built from `item`, boxed at `address` unless null. */
  ghost function Initial<V>(n: nat, item: Option<V>, address: nat): State<V> {
    var threads := seq(n, _ => Idle(Nothing));
    match item
    case None => State(Tag(0, 0, false), map[], threads)
    case Some(v) => State(Tag(address, 0, false), map[address := v], threads)
  }

  // ---- What threads hold ----

  datatype Query = Loads | Readers | Writers | Boxes(addr: nat)

  ghost predicate Holds<V>(pc: Pc<V>, q: Query) {
    match q
    case Loads => pc.LoadRead? || pc.LoadAcquire? || pc.LoadCopy? || pc.LoadRelease?
    case Readers => pc.LoadCopy? || pc.LoadRelease?
    case Writers => pc.StoreSwap?
    case Boxes(a) =>
      ((pc.StoreRead? || pc.StoreMark? || pc.StoreSwap?) && pc.box == a) || ((pc.StoreTake? || pc.StoreFree?) && pc.stale == a)
  }

  ghost function Weights<V>(threads: seq<Pc<V>>, q: Query): (ws: seq<int>)
    ensures |ws| == |threads| && NonNegative(ws)
  {
    seq(|threads|, id requires 0 <= id < |threads| => One(Holds(threads[id], q)))
  }

  ghost function Holders<V>(threads: seq<Pc<V>>, q: Query): int {
    Sum(Weights(threads, q))
  }

  ghost predicate BoxHolds<V>(heap: map<nat, V>, addr: nat, v: Option<V>) {
    match v
    case None => addr == 0
    case Some(x) => 0 < addr < ADDRESSES && addr in heap && heap[addr] == x
  }

  ghost predicate ThreadOk<V>(st: State<V>, pc: Pc<V>) {
    match pc
    case LoadAcquire(curr) => curr.addr != 0 && !curr.mark && curr.Fits()
    case LoadCopy(curr) => curr.addr == st.word.addr != 0 && st.word.addr in st.heap
    case LoadRelease(curr, v) => st.word.addr in st.heap && st.heap[st.word.addr] == v
    case StoreRead(box, item) => BoxHolds(st.heap, box, item)
    case StoreMark(box, item, curr) => BoxHolds(st.heap, box, item) && curr.Fits()
    case StoreSwap(box, item, stale) => BoxHolds(st.heap, box, item) && stale == st.word.addr
    case StoreTake(stale, was) => stale != 0 && stale in st.heap && st.heap[stale] == was
    case StoreFree(stale, was, v) => stale != 0 && stale in st.heap && v == was
    case Fault => false
    case _ => true
  }

  ghost predicate BoxOk<V>(st: State<V>, a: nat) {
    Holders(st.threads, Boxes(a)) + One(st.word.addr == a) == One(a in st.heap)
  }

  ghost predicate Inv<V>(st: State<V>) {
    && st.word.Fits()
    && Holders(st.threads, Readers) == st.word.version
    && Holders(st.threads, Writers) == One(st.word.mark)
    && (st.word.mark ==> st.word.version == 0)
    && 0 !in st.heap
    && (forall a: nat | a > 0 :: BoxOk(st, a))
    && (forall id: nat | id < |st.threads| :: ThreadOk(st, st.threads[id]))
  }

  lemma HoldersUpdate<V>(threads: seq<Pc<V>>, id: nat, pc: Pc<V>, q: Query)
    requires id < |threads|
    ensures Holders(threads[id := pc], q) == Holders(threads, q) - One(Holds(threads[id], q)) + One(Holds(pc, q))
  {
    hide Holds;
    var ws := Weights(threads, q);
    assert Weights(threads[id := pc], q) == ws[id := One(Holds(pc, q))];
    SumUpdate(ws, id, One(Holds(pc, q)));
  }

  lemma HoldersAtLeast<V>(threads: seq<Pc<V>>, id: nat, q: Query)
    requires id < |threads|
    ensures One(Holds(threads[id], q)) <= Holders(threads, q) <= |threads|
    ensures forall other: nat | other < |threads| && other != id :: One(Holds(threads[id], q)) + One(Holds(threads[other], q)) <= Holders(threads, q)
  {
    hide Holds;
    var ws := Weights(threads, q);
    SumAtLeast(ws, id);
    SumAtMostCount(ws);
    forall other: nat | other < |threads| && other != id
      ensures One(Holds(threads[id], q)) + One(Holds(threads[other], q)) <= Holders(threads, q)
    {
      SumAtLeastTwo(ws, id, other);
    }
  }

  // ---- Every step keeps the invariant ----

  ghost predicate Acts<V>(st: State<V>, m: Move<V>) {
    m.id < |st.threads|
  }

  ghost function Target<V>(st: State<V>, m: Move<V>): Effect<V>
    requires Acts(st, m)
  {
    Exec(st.threads[m.id], st.word, st.heap, m)
  }

  /** A load that counts itself in a version field that is already full. */
  ghost predicate Overflows<V>(st: State<V>, m: Move<V>) {
    && Acts(st, m)
    && st.threads[m.id].LoadAcquire?
    && Target(st, m).pc.LoadCopy?
    && st.word.version + 1 == VERSIONS
  }

  /** What the counts say about the thread that moves and about any other thread. */
  lemma Exclusion<V>(st: State<V>, id: nat, other: nat)
    requires Inv(st) && id < |st.threads| && other < |st.threads| && id != other
    ensures Holds(st.threads[id], Readers) ==> 0 < st.word.version && !st.word.mark
    ensures Holds(st.threads[id], Writers) ==> st.word.mark && !Holds(st.threads[other], Readers) && !Holds(st.threads[other], Writers)
    ensures forall a: nat | a > 0 && Holds(st.threads[id], Boxes(a)) :: a in st.heap && a != st.word.addr && !Holds(st.threads[other], Boxes(a))
  {
    hide Holds, Weights, ThreadOk;
    Solo(st, id);
    HoldersAtLeast(st.threads, id, Writers);
    HoldersAtLeast(st.threads, other, Readers);
    forall a: nat | a > 0 && Holds(st.threads[id], Boxes(a)) ensures !Holds(st.threads[other], Boxes(a)) {
      assert BoxOk(st, a);
      HoldersAtLeast(st.threads, id, Boxes(a));
    }
  }

  lemma Solo<V>(st: State<V>, id: nat)
    requires Inv(st) && id < |st.threads|
    ensures Holds(st.threads[id], Readers) ==> 0 < st.word.version && !st.word.mark
    ensures Holds(st.threads[id], Writers) ==> st.word.mark && st.word.version == 0
    ensures forall a: nat | a > 0 && Holds(st.threads[id], Boxes(a)) :: a in st.heap && a != st.word.addr
  {
    hide Holds, Weights, ThreadOk;
    HoldersAtLeast(st.threads, id, Readers);
    HoldersAtLeast(st.threads, id, Writers);
    forall a: nat | a > 0 && Holds(st.threads[id], Boxes(a)) ensures a in st.heap && a != st.word.addr {
      assert BoxOk(st, a);
      HoldersAtLeast(st.threads, id, Boxes(a));
    }
  }

  /** The box in the word is allocated. */
  lemma CurrentBox<V>(st: State<V>)
    requires Inv(st) && st.word.addr != 0
    ensures st.word.addr in st.heap
  {
    hide Holds, ThreadOk;
    assert BoxOk(st, st.word.addr);
    SumNonNegative(Weights(st.threads, Boxes(st.word.addr)));
  }

  /** No step makes another thread's view of the heap wrong. */
  lemma OthersUnharmed<V>(st: State<V>, m: Move<V>, other: nat)
    requires Inv(st) && Acts(st, m) && other < |st.threads| && other != m.id
    ensures ThreadOk(Step(st, m), st.threads[other])
  {
    hide Holders, BoxOk;
    Exclusion(st, m.id, other);
    Exclusion(st, other, m.id);
    assert ThreadOk(st, st.threads[m.id]);
    assert ThreadOk(st, st.threads[other]);
  }

  lemma MoverOk<V>(st: State<V>, m: Move<V>)
    requires Inv(st) && Acts(st, m)
    ensures ThreadOk(Step(st, m), Target(st, m).pc)
    ensures Step(st, m).word.Fits() && 0 !in Step(st, m).heap
  {
    hide Holders, BoxOk;
    if st.word.addr != 0 {
      CurrentBox(st);
    }
    Solo(st, m.id);
    assert ThreadOk(st, st.threads[m.id]);
  }

  lemma CountsKept<V>(st: State<V>, m: Move<V>)
    requires Inv(st) && Acts(st, m) && !Overflows(st, m)
    ensures Holders(Step(st, m).threads, Readers) == Step(st, m).word.version
    ensures Holders(Step(st, m).threads, Writers) == One(Step(st, m).word.mark)
    ensures Step(st, m).word.mark ==> Step(st, m).word.version == 0
  {
    hide Holders, BoxOk;
    Solo(st, m.id);
    assert ThreadOk(st, st.threads[m.id]);
    HoldersUpdate(st.threads, m.id, Target(st, m).pc, Readers);
    HoldersUpdate(st.threads, m.id, Target(st, m).pc, Writers);
  }

  lemma BoxKept<V>(st: State<V>, m: Move<V>, a: nat)
    requires Inv(st) && Acts(st, m) && a > 0
    ensures BoxOk(Step(st, m), a)
  {
    hide Holders;
    if st.word.addr != 0 {
      CurrentBox(st);
    }
    Solo(st, m.id);
    assert ThreadOk(st, st.threads[m.id]);
    assert BoxOk(st, a);
    HoldersUpdate(st.threads, m.id, Target(st, m).pc, Boxes(a));
  }

  lemma StepKeepsInv<V>(st: State<V>, m: Move<V>)
    requires Inv(st) && !Overflows(st, m)
    ensures Inv(Step(st, m))
  {
    if Acts(st, m) {
      var st' := Step(st, m);
      MoverOk(st, m);
      CountsKept(st, m);
      forall a: nat | a > 0 ensures BoxOk(st', a) {
        BoxKept(st, m, a);
      }
      forall id: nat | id < |st'.threads| ensures ThreadOk(st', st'.threads[id]) {
        if id != m.id {
          OthersUnharmed(st, m, id);
        }
      }
    }
  }

  /** The 14-bit counter is exact precisely until a load finds it full. */
  lemma StepKeepsInvExactly<V>(st: State<V>, m: Move<V>)
    requires Inv(st)
    ensures Inv(Step(st, m)) <==> !Overflows(st, m)
  {
    if Overflows(st, m) {
      HoldersUpdate(st.threads, m.id, Target(st, m).pc, Readers);
    } else {
      StepKeepsInv(st, m);
    }
  }

  /** With at most 2^14 - 1 loads in flight, each load that has not counted itself yet finds room. */
  lemma FewLoadsNeverOverflow<V>(st: State<V>, m: Move<V>)
    requires Inv(st) && Holders(st.threads, Loads) < VERSIONS
    ensures !Overflows(st, m)
  {
    if Acts(st, m) && st.threads[m.id].LoadAcquire? {
      var ws := Weights(st.threads, Readers);
      SumUpdate(ws, m.id, 1);
      SumMonotone(ws[m.id := 1], Weights(st.threads, Loads));
    }
  }

  lemma InitialInv<V>(n: nat, item: Option<V>, address: nat)
    requires 0 < address < ADDRESSES
    ensures Inv(Initial(n, item, address))
    ensures Initial(n, item, address).Value() == item
  {
    var st := Initial(n, item, address);
    forall q: Query ensures Holders(st.threads, q) == 0 {
      SumZero(Weights(st.threads, q));
    }
  }

  /** In every state the run leaves, at most 2^14 - 1 loads are in flight. */
  ghost predicate FewLoads<V>(st: State<V>, moves: seq<Move<V>>) {
    forall i: nat | i < |moves| :: Holders(Run(st, moves[..i]).threads, Loads) < VERSIONS
  }

  lemma {:induction false} RunKeepsInv<V>(st: State<V>, moves: seq<Move<V>>)
    requires Inv(st) && FewLoads(st, moves)
    ensures Inv(Run(st, moves))
  {
    hide Inv, Step, Holders;
    if moves != [] {
      var n := |moves| - 1;
      FewLoadsPrefix(st, moves, n);
      RunKeepsInv(st, moves[..n]);
      assert Holders(Run(st, moves[..n]).threads, Loads) < VERSIONS;
      FewLoadsNeverOverflow(Run(st, moves[..n]), moves[n]);
      StepKeepsInv(Run(st, moves[..n]), moves[n]);
    }
  }

  lemma FewLoadsPrefix<V>(st: State<V>, moves: seq<Move<V>>, n: nat)
    requires FewLoads(st, moves) && n <= |moves|
    ensures FewLoads(st, moves[..n])
  {
    hide Run, Holders;
    forall i: nat | i < n ensures Holders(Run(st, moves[..n][..i]).threads, Loads) < VERSIONS {
      assert moves[..n][..i] == moves[..i];
    }
  }

  // ---- What the invariant promises ----

  /** No thread ever touches a box that is not allocated. */
  lemma NeverFaults<V>(n: nat, item: Option<V>, address: nat, moves: seq<Move<V>>, id: nat)
    requires 0 < address < ADDRESSES && id < n
    requires FewLoads(Initial(n, item, address), moves)
    ensures Run(Initial(n, item, address), moves).threads[id] != Fault
  {
    InitialInv(n, item, address);
    RunKeepsInv(Initial(n, item, address), moves);
    assert ThreadOk(Run(Initial(n, item, address), moves), Run(Initial(n, item, address), moves).threads[id]);
  }

  /** A mark means one store and no load between its two updates; a version counts exactly the loads between theirs. */
  lemma MarkExcludesLoads<V>(st: State<V>, id: nat, other: nat)
    requires Inv(st) && id < |st.threads| && other < |st.threads| && id != other
    ensures st.threads[id].StoreSwap? ==> !Holds(st.threads[other], Readers) && !Holds(st.threads[other], Writers)
    ensures st.word.mark <==> exists j: nat | j < |st.threads| :: Holds(st.threads[j], Writers)
  {
    Exclusion(st, id, other);
    if st.word.mark {
      var j := SumWitness(Weights(st.threads, Writers));
      assert Holds(st.threads[j], Writers);
    }
    forall j: nat | j < |st.threads| && Holds(st.threads[j], Writers) ensures st.word.mark {
      Solo(st, j);
    }
  }

  /** A deleted box is deleted by its only owner and is not being copied by a load. */
  lemma DeleteIsSafe<V>(st: State<V>, m: Move<V>, other: nat)
    requires Inv(st) && Acts(st, m) && st.threads[m.id].StoreFree? && other < |st.threads| && other != m.id
    ensures st.threads[m.id].stale in st.heap && st.threads[m.id].stale != st.word.addr
    ensures !Holds(st.threads[other], Boxes(st.threads[m.id].stale))
    ensures st.threads[other].LoadCopy? ==> st.threads[other].curr.addr != st.threads[m.id].stale
  {
    hide Holders, BoxOk;
    assert ThreadOk(st, st.threads[m.id]);
    assert ThreadOk(st, st.threads[other]);
    Exclusion(st, m.id, other);
  }

  /** At rest the only box left is the one the word points to. */
  lemma QuiescentOwnsOneBox<V>(st: State<V>)
    requires Inv(st) && forall id: nat | id < |st.threads| :: st.threads[id].Idle?
    ensures st.heap.Keys == if st.word.addr == 0 then {} else {st.word.addr}
    ensures st.word == Tag(st.word.addr, 0, false)
  {
    forall q: Query ensures Holders(st.threads, q) == 0 {
      SumZero(Weights(st.threads, q));
    }
    forall a: nat | a > 0 ensures a in st.heap <==> a == st.word.addr {
      assert BoxOk(st, a);
    }
  }
}
