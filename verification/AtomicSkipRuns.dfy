/** A run in which two insertions of one absent key both return and the key answers nothing. */
module AtomicSkipRuns {
  import opened Options
  import opened TaggedPtr
  import opened AtomicSkipMachine
  import opened AtomicSkipProofs
  import opened AtomicSkipSafety

  lemma {:induction false} RunAppend<V>(st: State<V>, a: seq<Move<V>>, b: seq<Move<V>>)
    ensures Run(st, a + b) == Run(Run(st, a), b)
  {
    hide Step;
    if b == [] {
      assert a + b == a;
    } else {
      var n := |b| - 1;
      assert (a + b)[..|a + b| - 1] == a + b[..n];
      RunAppend(st, a, b[..n]);
    }
  }

  lemma {:induction false} RunOne<V>(st: State<V>, ms: seq<Move<V>>, m: Move<V>)
    ensures Run(st, ms + [m]) == Step(Run(st, ms), m)
  {
    assert (ms + [m])[..|ms|] == ms;
  }

  /** A step of thread `id`; a node it creates has one level. */
  ghost function Go<V>(id: nat): Move<V> {
    Move(id, Rest, false, 0)
  }

  // ---- A search that meets nothing smaller than its key ----

  /** On every level the head leads to a node whose key is `key` or greater. */
  ghost predicate NothingBefore<V>(nodes: seq<Node<V>>, key: int) {
    && nodes != [] && |nodes[HEAD].nexts| == TOP + 1
    && forall l: nat | l <= TOP :: nodes[HEAD].nexts[l].addr < |nodes| && key <= nodes[nodes[HEAD].nexts[l].addr].key
  }

  /** The search found its key on a level above `level`. */
  ghost predicate MetAbove<V>(nodes: seq<Node<V>>, key: int, level: int)
    requires NothingBefore(nodes, key)
  {
    exists l: nat :: level < l <= TOP && nodes[nodes[HEAD].nexts[l].addr].key == key
  }

  /** What a search from the head has recorded when it is about to read level `level`. */
  ghost function Passed<V>(nodes: seq<Node<V>>, level: int): Trail
    requires nodes != [] && |nodes[HEAD].nexts| == TOP + 1
  {
    Trail(seq(TOP + 1, _ => HEAD),
          seq(TOP + 1, l requires 0 <= l <= TOP => if l <= level then Tag(0, 0, false) else nodes[HEAD].nexts[l]))
  }

  ghost function Descent<V>(id: nat, n: nat): (ms: seq<Move<V>>)
    ensures |ms| == n
  {
    seq(n, _ => Go(id))
  }

  ghost function Searching<V>(nodes: seq<Node<V>>, goal: Goal<V>, key: int, level: nat): Pc<V>
    requires NothingBefore(nodes, key)
  {
    Find(goal, key, level, HEAD, MetAbove(nodes, key, level), Passed(nodes, level))
  }

  lemma {:induction false} DescendStep<V>(nodes: seq<Node<V>>, goal: Goal<V>, key: int, level: nat)
    requires NothingBefore(nodes, key) && level <= TOP
    ensures FindStep(Searching(nodes, goal, key, level), nodes) ==
            if level > 0 then Searching(nodes, goal, key, level - 1)
            else Found(goal, key, MetAbove(nodes, key, -1), Passed(nodes, -1))
  {
    var w := nodes[HEAD].nexts[level];
    var was, trail := Passed(nodes, level), Passed(nodes, level - 1);
    assert trail.preds == was.preds[level := HEAD] && trail.succs == was.succs[level := w];
    assert MetAbove(nodes, key, level - 1) <==> MetAbove(nodes, key, level) || nodes[w.addr].key == key;
  }

  lemma {:induction false} Descends<V>(st: State<V>, id: nat, goal: Goal<V>, key: int, n: nat)
    requires id < |st.threads| && NothingBefore(st.heap.nodes, key) && n <= TOP
    requires st.threads[id] == Searching(st.heap.nodes, goal, key, TOP)
    ensures Run(st, Descent(id, n)) == st.(threads := st.threads[id := Searching(st.heap.nodes, goal, key, TOP - n)])
  {
    hide FindStep, Searching, NothingBefore, Step;
    if n == 0 {
      assert st.threads == st.threads[id := st.threads[id]];
    } else {
      Descends(st, id, goal, key, n - 1);
      DescendStep(st.heap.nodes, goal, key, TOP - (n - 1));
      assert Descent<V>(id, n) == Descent(id, n - 1) + [Go(id)];
      hide Run;
      var mid := Run(st, Descent(id, n - 1));
      RunOne(st, Descent(id, n - 1), Go(id));
      SearchStep(mid, id, goal, key, TOP - (n - 1));
    }
  }

  lemma {:induction false} SearchStep<V>(st: State<V>, id: nat, goal: Goal<V>, key: int, level: nat)
    requires id < |st.threads| && NothingBefore(st.heap.nodes, key)
    requires st.threads[id] == Searching(st.heap.nodes, goal, key, level)
    ensures Step(st, Go(id)) == st.(threads := st.threads[id := FindStep(Searching(st.heap.nodes, goal, key, level), st.heap.nodes)])
  {
    hide FindStep;
  }

  /** The whole search of thread `id`, from its first load to its last. */
  lemma {:induction false} Search<V>(st: State<V>, id: nat, goal: Goal<V>, key: int)
    requires id < |st.threads| && NothingBefore(st.heap.nodes, key) && st.threads[id] == StartFind(goal, key)
    ensures var pc := Found(goal, key, MetAbove(st.heap.nodes, key, -1), Passed(st.heap.nodes, -1));
            Run(st, Descent(id, TOP + 1)) == st.(threads := st.threads[id := pc])
  {
    hide FindStep, Found;
    var nodes := st.heap.nodes;
    assert StartFind(goal, key) == Searching(nodes, goal, key, TOP) by {
      assert StartFind(goal, key).trail == Passed(nodes, TOP);
      assert !MetAbove(nodes, key, TOP);
    }
    Descends(st, id, goal, key, TOP);
    DescendStep(nodes, goal, key, 0);
    assert Descent<V>(id, TOP + 1) == Descent(id, TOP) + [Go(id)];
    RunOne(st, Descent(id, TOP), Go(id));
    SearchStep(Run(st, Descent(id, TOP)), id, goal, key, 0);
  }

  // ---- Two insertions of one key ----

  ghost function Stage<V>(n: nat, h: Heap<V>, first: Pc<V>, second: Pc<V>): State<V>
    requires n >= 2
  {
    State(h, [first, second] + seq(n - 2, _ => Idle(Nothing)))
  }

  lemma StageThreads<V>(n: nat, h: Heap<V>, first: Pc<V>, second: Pc<V>, pc: Pc<V>)
    requires n >= 2
    ensures Stage(n, h, first, second).threads[0 := pc] == Stage(n, h, pc, second).threads
    ensures Stage(n, h, first, second).threads[1 := pc] == Stage(n, h, first, pc).threads
  {
  }

  /** The list with nodes 2 and 3 for `key` prepared, and node 2 linked or not. */
  ghost function Prepared<V>(key: int, handles: seq<Option<V>>, linked: bool, count: int): Heap<V> {
    var h := Initial<V>(0).heap;
    var own := seq(|handles|, i requires 0 <= i < |handles| => Node(key, [Tag(TAIL, 0, false)], handles[i]));
    var nexts := h.nodes[HEAD].nexts;
    var head := h.nodes[HEAD].(nexts := if linked then nexts[0 := Tag(2, 1, false)] else nexts);
    Heap([head, h.nodes[TAIL]] + own, if linked then [HEAD, 2, TAIL] else [HEAD, TAIL], count)
  }

  lemma {:induction false} PreparedSearch<V>(key: int, handles: seq<Option<V>>, linked: bool, count: int)
    requires IsKey(key) && (linked ==> handles != [])
    ensures var nodes := Prepared(key, handles, linked, count).nodes;
            && NothingBefore(nodes, key)
            && (MetAbove(nodes, key, -1) <==> linked)
            && Passed(nodes, -1) == Trail(seq(TOP + 1, _ => HEAD), nodes[HEAD].nexts)
  {
    var nodes := Prepared(key, handles, linked, count).nodes;
    if linked {
      assert nodes[nodes[HEAD].nexts[0].addr].key == key;
    }
  }

  /** The trail of a search before anything is linked. */
  ghost function FreshTrail(): Trail {
    Trail(seq(TOP + 1, _ => HEAD), seq(TOP + 1, _ => Tag(TAIL, 0, false)))
  }

  ghost function Call<V>(id: nat, op: Op<V>): seq<Move<V>> {
    [Move(id, op, false, 0)] + Descent(id, TOP + 1)
  }

  /** A call runs to the end of its search. */
  lemma {:induction false} Called<V>(st: State<V>, id: nat, op: Op<V>, goal: Goal<V>, key: int)
    requires id < |st.threads| && NothingBefore(st.heap.nodes, key) && st.threads[id].Idle? && IsKey(key)
    requires (op == Get(key) && goal == ForGet) || (goal.ForInsert? && goal.handle.Some? && op == Insert(key, goal.handle))
    ensures var pc := Found(goal, key, MetAbove(st.heap.nodes, key, -1), Passed(st.heap.nodes, -1));
            Run(st, Call(id, op)) == st.(threads := st.threads[id := pc])
  {
    var first := Move(id, op, false, 0);
    var st1 := st.(threads := st.threads[id := StartFind(goal, key)]);
    assert Run(st, [first]) == st1 by {
      RunOne(st, [], first);
      assert [] + [first] == [first];
    }
    hide Run, StartFind, NothingBefore, Found;
    Search(st1, id, goal, key);
    RunAppend(st, [first], Descent(id, TOP + 1));
  }

  lemma {:induction false} TwoSteps<V>(st: State<V>, a: Move<V>, b: Move<V>)
    ensures Run(st, [a]) == Step(st, a) && Run(st, [a, b]) == Step(Step(st, a), b)
  {
    hide Step;
    RunOne(st, [], a);
    assert [] + [a] == [a] && [a] + [b] == [a, b];
    RunOne(st, [a], b);
  }

  lemma {:induction false} StartsAt<V>(n: nat, key: int)
    requires n >= 2
    ensures Initial<V>(n) == Stage(n, Prepared(key, [], false, 0), Idle(Nothing), Idle(Nothing))
  {
    var init := Initial<V>(n);
    assert init.threads == Stage(n, init.heap, Idle(Nothing), Idle(Nothing)).threads;
  }

  /** Both threads find nothing and prepare a node each. */
  lemma {:induction false} BothPrepare<V>(n: nat, key: int, v: V, u: V) returns (ms: seq<Move<V>>)
    requires n >= 2 && IsKey(key)
    ensures Run(Initial(n), ms) ==
            Stage(n, Prepared(key, [Some(v), Some(u)], false, 0), LinkBottom(key, 2, FreshTrail()), LinkBottom(key, 3, FreshTrail()))
    ensures NoDeletion(ms)
  {
    var init := Initial<V>(n);
    StartsAt<V>(n, key);
    var a, b := Call(0, Insert(key, Some(v))) + [Go(0)], Call(1, Insert(key, Some(u))) + [Go(1)];
    var mid := Stage(n, Prepared(key, [Some(v)], false, 0), LinkBottom(key, 2, FreshTrail()), Idle(Nothing));
    FirstPrepares(n, key, v);
    SecondPrepares(n, key, v, u);
    hide Run, Initial, Prepared;
    RunAppend(init, a, b);
    ms := a + b;
  }

  lemma {:induction false} FirstPrepares<V>(n: nat, key: int, v: V)
    requires n >= 2 && IsKey(key)
    ensures Run(Stage(n, Prepared(key, [], false, 0), Idle(Nothing), Idle(Nothing)), Call(0, Insert(key, Some(v))) + [Go(0)]) ==
            Stage(n, Prepared(key, [Some(v)], false, 0), LinkBottom(key, 2, FreshTrail()), Idle(Nothing))
  {
    var h := Prepared<V>(key, [], false, 0);
    var st := Stage(n, h, Idle(Nothing), Idle(Nothing));
    PreparedSearch<V>(key, [], false, 0);
    Called(st, 0, Insert(key, Some(v)), ForInsert(Some(v)), key);
    assert h.nodes[HEAD].nexts == seq(TOP + 1, _ => Tag(TAIL, 0, false));
    var pc := NewNode(key, Some(v), FreshTrail());
    StageThreads(n, h, Idle(Nothing), Idle(Nothing), pc);
    RunOne(st, Call(0, Insert(key, Some(v))), Go(0));
    NodePrepared(Stage(n, h, pc, Idle(Nothing)), 0, key, [], v);
    StageThreads(n, h, pc, Idle(Nothing), LinkBottom(key, 2, FreshTrail()));
  }

  lemma {:induction false} SecondPrepares<V>(n: nat, key: int, v: V, u: V)
    requires n >= 2 && IsKey(key)
    ensures Run(Stage(n, Prepared(key, [Some(v)], false, 0), LinkBottom(key, 2, FreshTrail()), Idle(Nothing)), Call(1, Insert(key, Some(u))) + [Go(1)]) ==
            Stage(n, Prepared(key, [Some(v), Some(u)], false, 0), LinkBottom(key, 2, FreshTrail()), LinkBottom(key, 3, FreshTrail()))
  {
    var h := Prepared(key, [Some(v)], false, 0);
    var first := LinkBottom(key, 2, FreshTrail());
    var st := Stage(n, h, first, Idle(Nothing));
    PreparedSearch(key, [Some(v)], false, 0);
    Called(st, 1, Insert(key, Some(u)), ForInsert(Some(u)), key);
    assert h.nodes[HEAD].nexts == seq(TOP + 1, _ => Tag(TAIL, 0, false));
    var pc := NewNode(key, Some(u), FreshTrail());
    StageThreads(n, h, first, Idle(Nothing), pc);
    RunOne(st, Call(1, Insert(key, Some(u))), Go(1));
    NodePrepared(Stage(n, h, first, pc), 1, key, [Some(v)], u);
    StageThreads(n, h, first, pc, LinkBottom(key, 3, FreshTrail()));
  }

  lemma {:induction false} NodePrepared<V>(st: State<V>, id: nat, key: int, handles: seq<Option<V>>, v: V)
    requires id < |st.threads| && st.threads[id] == NewNode(key, Some(v), FreshTrail()) && st.heap == Prepared(key, handles, false, 0)
    ensures Step(st, Go(id)) == State(Prepared(key, handles + [Some(v)], false, 0), st.threads[id := LinkBottom(key, 2 + |handles|, FreshTrail())])
  {
    var h, h' := st.heap, Prepared(key, handles + [Some(v)], false, 0);
    var node := Node(key, seq(1, l requires 0 <= l <= 0 => Tag(FreshTrail().succs[l].addr, 0, false)), Some(v));
    assert node.nexts == [Tag(TAIL, 0, false)];
    assert h'.nodes == h.nodes + [node];
  }

  /** The first thread links its node and returns. */
  lemma {:induction false} FirstLinks<V>(n: nat, key: int, v: V, u: V)
    requires n >= 2 && IsKey(key)
    ensures var second, hs := LinkBottom(key, 3, FreshTrail()), [Some(v), Some(u)];
            Run(Stage(n, Prepared(key, hs, false, 0), LinkBottom(key, 2, FreshTrail()), second), [Go(0), Go(0)]) ==
            Stage(n, Prepared(key, hs, true, 1), Idle(Inserted(None)), second)
  {
    var second, hs := LinkBottom(key, 3, FreshTrail()), [Some(v), Some(u)];
    var h := Prepared(key, hs, false, 0);
    var st := Stage(n, h, LinkBottom(key, 2, FreshTrail()), second);
    var st1 := Stage(n, Prepared(key, hs, true, 0), CountNode(2), second);
    LinkStep(n, key, hs);
    StageThreads(n, h, LinkBottom(key, 2, FreshTrail()), second, CountNode(2));
    StageThreads(n, st1.heap, CountNode(2), second, Idle(Inserted(None)));
    TwoSteps(st, Go(0), Go(0));
    assert Step(st, Go(0)) == st1;
    assert Step(st1, Go(0)) == Stage(n, Prepared(key, hs, true, 1), Idle(Inserted(None)), second);
  }

  lemma {:induction false} LinkStep<V>(n: nat, key: int, hs: seq<Option<V>>)
    requires n >= 2 && IsKey(key) && |hs| == 2
    ensures Exec(LinkBottom(key, 2, FreshTrail()), Prepared(key, hs, false, 0), Go(0)) == Effect(CountNode(2), Prepared(key, hs, true, 0))
  {
    var h, h' := Prepared(key, hs, false, 0), Prepared(key, hs, true, 0);
    assert h.nodes[HEAD].nexts[0] == FreshTrail().succs[0] == Tag(TAIL, 0, false);
    assert Linked(Tag(TAIL, 0, false), 2) == Tag(2, 1, false);
    assert SetLink(h, HEAD, 0, Tag(2, 1, false)).nodes == h'.nodes;
    assert Place(h.order, HEAD, 2) == h'.order;
  }

  /** The second thread finds its swap lost, and its handle with it. */
  lemma {:induction false} SecondLoses<V>(n: nat, key: int, v: V, u: V)
    requires n >= 2 && IsKey(key)
    ensures var h, first := Prepared(key, [Some(v), Some(u)], true, 1), Idle(Inserted(None));
            var st := Stage(n, h, first, LinkBottom(key, 3, FreshTrail()));
            && LosesLink(st, Go(1))
            && Run(st, [Go(1)]) == Stage(n, h, first, StartFind(ForInsert(None), key))
  {
    var h, first := Prepared(key, [Some(v), Some(u)], true, 1), Idle(Inserted(None));
    var st := Stage(n, h, first, LinkBottom(key, 3, FreshTrail()));
    assert h.nodes[HEAD].nexts[0] == Tag(2, 1, false) != FreshTrail().succs[0];
    StageThreads(n, h, first, LinkBottom(key, 3, FreshTrail()), StartFind(ForInsert(None), key));
    TwoSteps(st, Go(1), Go(1));
  }

  /** Its next search meets the other node, and it stores None over the other thread's handle. */
  lemma {:induction false} SecondErases<V>(n: nat, key: int, v: V, u: V)
    requires n >= 2 && IsKey(key)
    ensures var first := Idle(Inserted(None));
            Run(Stage(n, Prepared(key, [Some(v), Some(u)], true, 1), first, StartFind(ForInsert(None), key)), Descent(1, TOP + 1) + [Go(1)]) ==
            Stage(n, Prepared(key, [None, Some(u)], true, 1), first, Idle(Inserted(Some(v))))
  {
    var h, h', first := Prepared(key, [Some(v), Some(u)], true, 1), Prepared(key, [None, Some(u)], true, 1), Idle(Inserted(None));
    var st := Stage(n, h, first, StartFind(ForInsert(None), key));
    PreparedSearch(key, [Some(v), Some(u)], true, 1);
    Search(st, 1, ForInsert(None), key);
    var pc := UpdateHandle(2, None);
    StageThreads(n, h, first, StartFind(ForInsert(None), key), pc);
    StageThreads(n, h', first, pc, Idle(Inserted(Some(v))));
    RunOne(st, Descent(1, TOP + 1), Go(1));
    assert SetHandle(h, 2, None).nodes == h'.nodes;
    hide Run, Passed, MetAbove;
    assert Step(Stage(n, h, first, pc), Go(1)) == Stage(n, h', first, Idle(Inserted(Some(v))));
  }

  /** A lookup of the key by the thread that inserted it first answers nothing. */
  lemma {:induction false} FirstGetsNothing<V>(n: nat, key: int, v: V, u: V)
    requires n >= 2 && IsKey(key)
    ensures var h, second := Prepared(key, [None, Some(u)], true, 1), Idle(Inserted(Some(v)));
            Run(Stage(n, h, Idle(Inserted(None)), second), Call(0, Get(key)) + [Go(0), Go(0)]) == Stage(n, h, Idle(Got(None)), second)
  {
    var h, second := Prepared(key, [None, Some(u)], true, 1), Idle(Inserted(Some(v)));
    var st := Stage(n, h, Idle(Inserted(None)), second);
    PreparedSearch(key, [None, Some(u)], true, 1);
    Called(st, 0, Get(key), ForGet, key);
    StageThreads(n, h, Idle(Inserted(None)), second, GetMark(2));
    StageThreads(n, h, GetMark(2), second, GetHandle(2));
    StageThreads(n, h, GetHandle(2), second, Idle(Got(None)));
    RunAppend(st, Call(0, Get(key)), [Go(0), Go(0)]);
    var mid := Stage(n, h, GetMark(2), second);
    TwoSteps(mid, Go(0), Go(0));
    hide Run, Passed, MetAbove;
    assert Step(mid, Go(0)) == Stage(n, h, GetHandle(2), second);
    assert Step(Stage(n, h, GetHandle(2), second), Go(0)) == Stage(n, h, Idle(Got(None)), second);
  }

  lemma EndsWithoutHandle<V>(key: int, u: V)
    requires IsKey(key)
    ensures var h := Prepared(key, [None, Some(u)], true, 1);
            && HasKey(h, key)
            && forall id: nat | id < |h.nodes| && id in h.order && h.nodes[id].key == key :: h.nodes[id].handle == None
  {
    assert Listed(Prepared(key, [None, Some(u)], true, 1), 2, 0);
  }

  /**
   Two threads insert one absent key. The first links its node and returns; the second then loses
   its swap, after `i` moves, and its handle. Its next search meets the first thread's node, and it
   stores nothing over the handle in it. Both insertions have returned, nobody has deleted the key,
   and it answers nothing.
   */
  lemma {:induction false} BothInsertionsAreLost<V>(n: nat, key: int, v: V, u: V) returns (ms: seq<Move<V>>, i: nat)
    requires n >= 2 && IsKey(key)
    ensures NoDeletion(ms) && i < |ms| && LosesLink(Run(Initial(n), ms[..i]), ms[i])
    ensures Run(Initial(n), ms[..i]).threads[0] == Idle(Inserted(None))
    ensures var end := Run(Initial(n), ms);
            && end.threads[1] == Idle(Inserted(Some(v))) && end.threads[0] == Idle(Got(None))
            && HasKey(end.heap, key)
            && forall id: nat | id < |end.heap.nodes| && id in end.heap.order && end.heap.nodes[id].key == key :: end.heap.nodes[id].handle == None
  {
    var init := Initial<V>(n);
    var before := BothPrepare(n, key, v, u);
    FirstLinks(n, key, v, u);
    SecondLoses(n, key, v, u);
    SecondErases(n, key, v, u);
    FirstGetsNothing(n, key, v, u);
    EndsWithoutHandle(key, u);
    hide Run, Initial, Prepared, LosesLink, HasKey, Stage, StartFind, FreshTrail;
    var won: seq<Move<V>>, erased: seq<Move<V>>, got: seq<Move<V>> := [Go(0), Go(0)], Descent(1, TOP + 1) + [Go(1)], Call(0, Get(key)) + [Go(0), Go(0)];
    RunAppend(init, before, won);
    i := |before + won|;
    RunAppend(init, before + won, [Go(1)]);
    RunAppend(init, before + won + [Go(1)], erased);
    RunAppend(init, before + won + [Go(1)] + erased, got);
    ms := before + won + [Go(1)] + erased + got;
    assert ms[..i] == before + won && ms[i] == Go(1);
  }
}
