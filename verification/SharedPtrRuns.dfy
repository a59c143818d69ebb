/** For which numbers of threads the reader count of the atomic shared pointer is exact, and its memory safe, in every run. */
module SharedPtrRuns {
  import opened Options
  import opened Sums
  import opened TaggedPtr
  import opened SharedPtr

  lemma {:induction false} RunAppend<V>(st: State<V>, a: seq<Move<V>>, b: seq<Move<V>>)
    ensures Run(st, a + b) == Run(Run(st, a), b)
  {
    hide Step;
    if b == [] {
      assert a + b == a;
    } else {
      var n := |b| - 1;
      assert (a + b)[..|a + b| - 1] == a + b[..n];
      RunAppend(st, a, b[..n]);
    }
  }

  // ---- Enough loads to fill the version field ----

  /** Thread `id` starts a load and goes on until it has counted itself. */
  ghost function LoadMoves<V>(id: nat): seq<Move<V>> {
    [Move(id, StartLoad, false, 0), Move(id, Rest, false, 0), Move(id, Rest, false, 0)]
  }

  lemma {:induction false} OneLoad<V>(st: State<V>, id: nat)
    requires id < |st.threads| && st.threads[id].Idle? && st.word.addr != 0 && !st.word.mark
    ensures Run(st, LoadMoves(id)[..2]) == st.(threads := st.threads[id := LoadAcquire(st.word)])
    ensures Run(st, LoadMoves(id)) == State(AddVersion(st.word, 1), st.heap, st.threads[id := LoadCopy(st.word)])
  {
    var ms: seq<Move<V>> := LoadMoves(id);
    var s1 := st.(threads := st.threads[id := LoadRead]);
    var s2 := st.(threads := st.threads[id := LoadAcquire(st.word)]);
    assert ms[..0] == [] && ms[..1][..0] == [] && ms[..2][..1] == ms[..1] && ms[..3] == ms;
    assert Step(st, ms[0]) == s1;
    assert Step(s1, ms[1]) == s2;
    assert Step(s2, ms[2]) == State(AddVersion(st.word, 1), st.heap, st.threads[id := LoadCopy(st.word)]);
    hide Step;
    assert Run(st, ms[..0]) == st;
    assert Run(st, ms[..1]) == s1;
    assert Run(st, ms[..2]) == s2;
  }

  /** None of these steps breaks a count unless the field is full. */
  lemma {:induction false} OneLoadKeepsInv<V>(st: State<V>, id: nat)
    requires Inv(st) && id < |st.threads| && st.threads[id].Idle? && st.word.addr != 0 && !st.word.mark
    ensures Inv(Run(st, LoadMoves(id)[..2]))
    ensures st.word.version + 1 < VERSIONS ==> Inv(Run(st, LoadMoves(id)))
  {
    var ms: seq<Move<V>> := LoadMoves(id);
    OneLoad(st, id);
    assert ms[..0] == [] && ms[..1][..0] == [] && ms[..2][..1] == ms[..1] && ms[..3] == ms;
    hide Inv;
    StepKeepsInvExactly(st, ms[0]);
    StepKeepsInvExactly(Step(st, ms[0]), ms[1]);
    var s2 := Run(st, ms[..2]);
    assert s2 == Step(Step(st, ms[0]), ms[1]);
    StepKeepsInvExactly(s2, ms[2]);
  }

  /** Threads 0 to `i - 1` load one after the other, and each stops after its first swap. */
  ghost function ManyLoads<V>(i: nat): seq<Move<V>> {
    if i == 0 then [] else ManyLoads(i - 1) + LoadMoves(i - 1)
  }

  /** Nobody is at work and the pointer holds `v` in the box at `address`. */
  ghost predicate AtRest<V>(st: State<V>, v: V, address: nat) {
    && 0 < address < ADDRESSES
    && st.word == Tag(address, 0, false) && st.heap == map[address := v]
    && forall id: nat | id < |st.threads| :: st.threads[id].Idle?
  }

  lemma RestInv<V>(st: State<V>, v: V, address: nat)
    requires AtRest(st, v, address)
    ensures Inv(st)
  {
    forall q: Query ensures Holders(st.threads, q) == 0 {
      SumZero(Weights(st.threads, q));
    }
  }

  /** The first `i` threads have counted themselves. */
  ghost function AllCounted<V>(st: State<V>, i: nat): State<V> {
    var word := (n: nat) => st.word.(version := n);
    State(word(i), st.heap, seq(|st.threads|, j requires 0 <= j < |st.threads| => if j < i then LoadCopy(word(j)) else st.threads[j]))
  }

  lemma {:induction false} ManyLoadsCount<V>(st: State<V>, v: V, address: nat, i: nat)
    requires AtRest(st, v, address) && i <= |st.threads| && i < VERSIONS
    ensures Run(st, ManyLoads(i)) == AllCounted(st, i)
    ensures Inv(AllCounted(st, i))
  {
    hide Inv, Step;
    if i == 0 {
      assert st == AllCounted(st, 0);
      RestInv(st, v, address);
    } else {
      var here := AllCounted(st, i - 1);
      ManyLoadsCount(st, v, address, i - 1);
      RunAppend(st, ManyLoads(i - 1), LoadMoves(i - 1));
      OneLoad(here, i - 1);
      OneLoadKeepsInv(here, i - 1);
      assert here.threads[i - 1 := LoadCopy(here.word)] == AllCounted(st, i).threads;
    }
  }

  /** The load after that finds the field full. */
  lemma {:induction false} OneLoadTooMany<V>(st: State<V>, v: V, address: nat)
    requires AtRest(st, v, address) && VERSIONS <= |st.threads|
    ensures var i := VERSIONS - 1;
            var full := Run(st, ManyLoads(i) + LoadMoves(i)[..2]);
            && Inv(full) && Overflows(full, Move(i, Rest, false, 0))
            && Run(st, ManyLoads(i) + LoadMoves(i)) == Step(full, Move(i, Rest, false, 0))
  {
    hide Inv, Step;
    var i := VERSIONS - 1;
    var many: seq<Move<V>>, ms: seq<Move<V>> := ManyLoads(i), LoadMoves(i);
    var here := AllCounted(st, i);
    ManyLoadsCount(st, v, address, i);
    RunAppend(st, many, ms[..2]);
    OneLoad(here, i);
    OneLoadKeepsInv(here, i);
    OneMore(st, many, ms);
  }

  lemma {:induction false} OneMore<V>(st: State<V>, many: seq<Move<V>>, ms: seq<Move<V>>)
    requires |ms| == 3
    ensures Run(st, many + ms) == Step(Run(st, many + ms[..2]), ms[2])
  {
    hide Step;
    assert (many + ms)[..|many + ms| - 1] == many + ms[..2];
  }

  // ---- From a null pointer ----

  ghost function StoreMoves<V>(id: nat, item: Option<V>, address: nat): seq<Move<V>> {
    [Move(id, StartStore(item), false, 0), Move(id, Rest, false, address), Move(id, Rest, false, 0), Move(id, Rest, false, 0), Move(id, Rest, false, 0)]
  }

  lemma {:induction false} FiveSteps<V>(st: State<V>, ms: seq<Move<V>>)
    requires |ms| == 5
    ensures Run(st, ms) == Step(Step(Step(Step(Step(st, ms[0]), ms[1]), ms[2]), ms[3]), ms[4])
  {
    hide Step;
    assert ms[..0] == [] && ms[..1][..0] == [] && ms[..2][..1] == ms[..1] && ms[..3][..2] == ms[..2] && ms[..4][..3] == ms[..3];
    assert Run(st, ms[..1]) == Step(st, ms[0]);
    assert Run(st, ms[..2]) == Step(Step(st, ms[0]), ms[1]);
    assert Run(st, ms[..3]) == Step(Step(Step(st, ms[0]), ms[1]), ms[2]);
  }

  lemma {:induction false} StoreFirst<V>(n: nat, v: V, address: nat)
    requires 0 < address < ADDRESSES && n > 0
    ensures AtRest(Run(Initial(n, None, address), StoreMoves(0, Some(v), address)), v, address)
  {
    var item, ms: seq<Move<V>> := Some(v), StoreMoves(0, Some(v), address);
    var st: State<V> := Initial(n, None, address);
    FiveSteps(st, ms);
    var th, word, heap := st.threads, st.word, map[address := v];
    assert Step(st, ms[0]) == State(word, map[], th[0 := StoreAlloc(item)]);
    assert Step(State(word, map[], th[0 := StoreAlloc(item)]), ms[1]) == State(word, heap, th[0 := StoreRead(address, item)]);
    assert Step(State(word, heap, th[0 := StoreRead(address, item)]), ms[2]) == State(word, heap, th[0 := StoreMark(address, item, word)]);
    assert Step(State(word, heap, th[0 := StoreMark(address, item, word)]), ms[3]) == State(word.(mark := true), heap, th[0 := StoreSwap(address, item, 0)]);
    assert Step(State(word.(mark := true), heap, th[0 := StoreSwap(address, item, 0)]), ms[4])
        == State(Tag(address, 0, false), heap, th[0 := Idle(Swapped(None))]);
  }

  /** A first run after which the pointer holds a value and nobody is at work. */
  lemma {:induction false} GetsValue<V>(n: nat, item: Option<V>, v: V, address: nat) returns (ms: seq<Move<V>>, w: V)
    requires 0 < address < ADDRESSES && n > 0
    ensures AtRest(Run(Initial(n, item, address), ms), w, address)
  {
    match item
    case None =>
      ms, w := StoreMoves(0, Some(v), address), v;
      StoreFirst(n, v, address);
    case Some(x) =>
      ms, w := [], x;
  }

  // ---- Exactly 2^14 - 1 threads ----

  /** Every count and every ownership is exact in every run. */
  ghost predicate AlwaysExact<V(!new)>(n: nat, item: Option<V>, address: nat) {
    forall moves: seq<Move<V>> :: Inv(Run(Initial(n, item, address), moves))
  }

  /** However many loads its threads have in flight, the pointer keeps its accounts exactly if it has fewer than 2^14 threads. */
  lemma {:induction false} AlwaysExactIff<V(!new)>(n: nat, item: Option<V>, v: V, address: nat)
    requires 0 < address < ADDRESSES
    ensures AlwaysExact(n, item, address) <==> n < 0x4000
  {
    var init := Initial(n, item, address);
    if n < VERSIONS {
      InitialInv(n, item, address);
      forall moves: seq<Move<V>> ensures Inv(Run(init, moves)) {
        FewThreadsFewLoads(init, moves);
        RunKeepsInv(init, moves);
      }
    } else {
      var ms, w := GetsValue(n, item, v, address);
      hide Inv, Step, Run, AtRest;
      var st, i := Run(init, ms), VERSIONS - 1;
      OneLoadTooMany(st, w, address);
      var full := Run(st, ManyLoads(i) + LoadMoves(i)[..2]);
      StepKeepsInvExactly(full, Move(i, Rest, false, 0));
      RunAppend(init, ms, ManyLoads(i) + LoadMoves(i));
      assert !Inv(Run(init, ms + (ManyLoads(i) + LoadMoves(i))));
    }
  }

  lemma FewThreadsFewLoads<V>(st: State<V>, moves: seq<Move<V>>)
    requires |st.threads| < VERSIONS
    ensures FewLoads(st, moves)
  {
    forall i: nat | i < |moves| ensures Holders(Run(st, moves[..i]).threads, Loads) < VERSIONS {
      SumAtMostCount(Weights(Run(st, moves[..i]).threads, Loads));
    }
  }

  // ---- Exactly 2^14 threads ----

  /** All 2^14 threads are readers and the count has wrapped to zero: nobody is left to be misled by it. */
  ghost predicate Brimful<V>(st: State<V>) {
    && |st.threads| == VERSIONS && st.word.Fits() && st.word.version == 0 && !st.word.mark
    && 0 !in st.heap
    && (forall a: nat | a > 0 :: BoxOk(st, a))
    && (forall id: nat | id < |st.threads| :: Holds(st.threads[id], Readers) && ThreadOk(st, st.threads[id]))
  }

  lemma {:induction false} AllOnes(ws: seq<int>)
    requires Sum(ws) == |ws| && forall i | 0 <= i < |ws| :: ws[i] <= 1
    ensures forall i | 0 <= i < |ws| :: ws[i] == 1
  {
    if ws != [] {
      var n := |ws| - 1;
      SumAtMostCount(ws[..n]);
      AllOnes(ws[..n]);
      assert ws == ws[..n] + [ws[n]];
    }
  }

  lemma {:induction false} OnesSum(ws: seq<int>)
    requires forall i | 0 <= i < |ws| :: ws[i] == 1
    ensures Sum(ws) == |ws|
  {
    if ws != [] {
      OnesSum(ws[..|ws| - 1]);
    }
  }

  /** With 2^14 threads the load that finds the count full is the last thread to become a reader. */
  lemma {:induction false} OverflowFills<V>(st: State<V>, m: Move<V>)
    requires Inv(st) && Overflows(st, m) && |st.threads| <= VERSIONS
    ensures Brimful(Step(st, m))
  {
    var st' := Step(st, m);
    MoverOk(st, m);
    forall a: nat | a > 0 ensures BoxOk(st', a) {
      BoxKept(st, m, a);
    }
    forall id: nat | id < |st'.threads| ensures ThreadOk(st', st'.threads[id]) {
      if id != m.id {
        OthersUnharmed(st, m, id);
      }
    }
    HoldersUpdate(st.threads, m.id, Target(st, m).pc, Readers);
    var ws := Weights(st'.threads, Readers);
    SumAtMostCount(ws);
    AllOnes(ws);
    forall id: nat | id < |st'.threads| ensures Holds(st'.threads[id], Readers) {
      assert ws[id] == One(Holds(st'.threads[id], Readers));
    }
  }

  /** From there a thread copies, retries, or is the first to take its count back. */
  lemma {:induction false} BrimfulMoves<V>(st: State<V>, m: Move<V>)
    requires Brimful(st) && Acts(st, m)
    ensures var st' := Step(st, m);
            && st'.word.Fits() && !st'.word.mark && st'.word.addr == st.word.addr && st'.heap == st.heap
            && (forall a: nat :: Holds(st'.threads[m.id], Boxes(a)) == Holds(st.threads[m.id], Boxes(a)))
            && (forall id: nat | id < |st'.threads| :: ThreadOk(st', st'.threads[id]))
            && !Holds(st'.threads[m.id], Writers)
            && if Holds(st'.threads[m.id], Readers) then st'.word.version == 0 else st'.word.version == VERSIONS - 1
  {
    hide BoxOk;
    var st' := Step(st, m);
    assert Holds(st.threads[m.id], Readers) && ThreadOk(st, st.threads[m.id]);
    forall id: nat | id < |st'.threads| ensures ThreadOk(st', st'.threads[id]) {
      assert Holds(st.threads[id], Readers) && ThreadOk(st, st.threads[id]);
    }
  }

  lemma {:induction false} BrimfulStep<V>(st: State<V>, m: Move<V>)
    requires Brimful(st)
    ensures Brimful(Step(st, m)) || Inv(Step(st, m))
  {
    if Acts(st, m) {
      var st', pc := Step(st, m), Target(st, m).pc;
      BrimfulMoves(st, m);
      assert Holds(st.threads[m.id], Readers);
      hide Exec, ThreadOk;
      OnesSum(Weights(st.threads, Readers));
      SumZero(Weights(st.threads, Writers));
      HoldersUpdate(st.threads, m.id, pc, Readers);
      HoldersUpdate(st.threads, m.id, pc, Writers);
      forall a: nat | a > 0 ensures BoxOk(st', a) {
        assert BoxOk(st, a);
        HoldersUpdate(st.threads, m.id, pc, Boxes(a));
      }
    }
  }

  lemma {:induction false} FewThreadsStaySound<V>(st: State<V>, moves: seq<Move<V>>)
    requires Inv(st) && |st.threads| <= VERSIONS
    ensures Inv(Run(st, moves)) || Brimful(Run(st, moves))
  {
    hide Inv, Brimful, Step, Overflows;
    if moves != [] {
      var n := |moves| - 1;
      var here := Run(st, moves[..n]);
      FewThreadsStaySound(st, moves[..n]);
      if Inv(here) {
        if Overflows(here, moves[n]) {
          OverflowFills(here, moves[n]);
        } else {
          StepKeepsInv(here, moves[n]);
        }
      } else {
        BrimfulStep(here, moves[n]);
      }
    }
  }

  lemma SoundNeverFaults<V>(st: State<V>, id: nat)
    requires (Inv(st) || Brimful(st)) && id < |st.threads|
    ensures st.threads[id] != Fault
  {
    assert ThreadOk(st, st.threads[id]);
  }

  // ---- One thread more ----

  /** With the count wrapped to zero a store finds the pointer free, and deletes the box. */
  lemma {:induction false} DeletesUnderLoads<V>(st: State<V>, id: nat, address: nat)
    requires id < |st.threads| && st.threads[id].Idle? && st.word == Tag(address, 0, false) && 0 < address && address in st.heap
    ensures var ms: seq<Move<V>> := StoreMoves(id, None, 0);
            var gone := Run(Run(st, ms), [Move(id, Rest, false, 0), Move(id, Rest, false, 0)]);
            && address !in gone.heap
            && forall j: nat | j < |st.threads| && j != id :: gone.threads[j] == st.threads[j]
  {
    var ms: seq<Move<V>>, go: Move<V> := StoreMoves(id, None, 0), Move(id, Rest, false, 0);
    FiveSteps(st, ms);
    var th, word, heap, v := st.threads, st.word, st.heap, st.heap[address];
    assert Step(st, ms[0]) == State(word, heap, th[id := StoreAlloc(None)]);
    assert Step(State(word, heap, th[id := StoreAlloc(None)]), ms[1]) == State(word, heap, th[id := StoreRead(0, None)]);
    assert Step(State(word, heap, th[id := StoreRead(0, None)]), ms[2]) == State(word, heap, th[id := StoreMark(0, None, word)]);
    assert Step(State(word, heap, th[id := StoreMark(0, None, word)]), ms[3]) == State(word.(mark := true), heap, th[id := StoreSwap(0, None, address)]);
    assert Step(State(word.(mark := true), heap, th[id := StoreSwap(0, None, address)]), ms[4])
        == State(Tag(0, 0, false), heap, th[id := StoreTake(address, v)]);
    var st5 := State(Tag(0, 0, false), heap, th[id := StoreTake(address, v)]);
    var st6 := State(Tag(0, 0, false), heap, th[id := StoreFree(address, v, v)]);
    assert Step(st5, go) == st6;
    assert Step(st6, go) == State(Tag(0, 0, false), heap - {address}, th[id := Idle(Swapped(Some(v)))]);
    assert [go, go][..1] == [go] && [go][..0] == [];
    assert Run(st5, [go]) == st6;
  }

  /** After 2^14 loads have counted themselves the count reads zero. */
  lemma {:induction false} CountWraps<V>(st: State<V>, v: V, address: nat)
    requires AtRest(st, v, address) && VERSIONS < |st.threads|
    ensures var full := Run(st, ManyLoads(VERSIONS - 1) + LoadMoves(VERSIONS - 1));
            && full.word == Tag(address, 0, false) && full.heap == st.heap
            && full.threads[0] == LoadCopy(st.word) && full.threads[VERSIONS].Idle?
  {
    hide Run, Inv;
    var i := VERSIONS - 1;
    var here := AllCounted(st, i);
    ManyLoadsCount(st, v, address, i);
    OneLoad(here, i);
    RunAppend(st, ManyLoads(i), LoadMoves(i));
  }

  /** One more thread then stores, and the first load copies a deleted box. */
  lemma {:induction false} CopiesDeletedBox<V>(st: State<V>, v: V, address: nat) returns (ms: seq<Move<V>>)
    requires AtRest(st, v, address) && VERSIONS < |st.threads|
    ensures Run(st, ms).threads[0] == Fault
  {
    var loads: seq<Move<V>>, store: seq<Move<V>> := ManyLoads(VERSIONS - 1) + LoadMoves(VERSIONS - 1), StoreMoves(VERSIONS, None, 0);
    var free: seq<Move<V>>, copy: Move<V> := [Move(VERSIONS, Rest, false, 0), Move(VERSIONS, Rest, false, 0)], Move(0, Rest, false, 0);
    CountWraps(st, v, address);
    DeletesUnderLoads(Run(st, loads), VERSIONS, address);
    hide Run, ManyLoads, LoadMoves, StoreMoves;
    RunAppend(st, loads, store);
    RunAppend(st, loads + store, free);
    ms := loads + store + free + [copy];
    LastMove(st, loads + store + free, copy);
  }

  lemma {:induction false} LastMove<V>(st: State<V>, ms: seq<Move<V>>, m: Move<V>)
    ensures Run(st, ms + [m]) == Step(Run(st, ms), m)
  {
    assert (ms + [m])[..|ms|] == ms;
  }

  /** No thread touches a box that is not allocated, in any run. */
  ghost predicate AlwaysSafe<V(!new)>(n: nat, item: Option<V>, address: nat) {
    forall moves: seq<Move<V>>, id: nat | id < n :: Run(Initial(n, item, address), moves).threads[id] != Fault
  }

  /** Memory is safe for one thread more than the counts are exact for, and for no more. */
  lemma {:induction false} AlwaysSafeIff<V(!new)>(n: nat, item: Option<V>, v: V, address: nat)
    requires 0 < address < ADDRESSES
    ensures AlwaysSafe(n, item, address) <==> n <= 0x4000
  {
    var init := Initial(n, item, address);
    if n <= VERSIONS {
      InitialInv(n, item, address);
      forall moves: seq<Move<V>>, id: nat | id < n ensures Run(init, moves).threads[id] != Fault {
        FewThreadsStaySound(init, moves);
        SoundNeverFaults(Run(init, moves), id);
      }
    } else {
      var ms, w := GetsValue(n, item, v, address);
      hide Run, AtRest;
      var more := CopiesDeletedBox(Run(init, ms), w, address);
      RunAppend(init, ms, more);
      assert Run(init, ms + more).threads[0] == Fault;
    }
  }
}
