/**
 The concurrent skip list used by one thread, and the rebuilding of a bucket: what the operations
 do to level 0, whatever the upper levels are.
 */
module AtomicSkipObject {
  import opened Options
  import opened TaggedPtr
  import opened AtomicSkipMachine
  import opened AtomicSkipProofs
  import opened SkipCells

  ghost function CellOf<V>(n: Node<V>): Cell<V>
    requires 0 < |n.nexts|
  {
    Cell(n.key, n.nexts[0].mark, n.handle)
  }

  ghost function Cells<V>(h: Heap<V>): (cs: seq<Cell<V>>)
    requires Ordered(h)
    ensures |cs| == |h.order|
  {
    seq(|h.order|, i requires 0 <= i < |h.order| => CellOf(h.nodes[h.order[i]]))
  }

  lemma CellsAscend<V>(h: Heap<V>)
    requires Ordered(h)
    ensures SkipCells.Ascending(Cells(h))
    ensures Cells(h)[0].key == MIN_KEY && Cells(h)[|h.order| - 1] == Cell(MAX_KEY, false, h.nodes[TAIL].handle)
  {
  }

  /** The handle a key's node holds, marked or not. */
  ghost function HandleOf<V>(cs: seq<Cell<V>>, key: int): Option<V> {
    var p := Rank(cs, key);
    if p < |cs| && cs[p].key == key then cs[p].handle else None
  }

  lemma RankOfNode<V>(h: Heap<V>, id: nat) returns (i: nat)
    requires Ordered(h) && Listed(h, id, 0)
    ensures i < |h.order| && h.order[i] == id && Rank(Cells(h), h.nodes[id].key) == i
  {
    i := Position(h, id);
    CellsAscend(h);
    RankIs(Cells(h), h.nodes[id].key, i);
  }

  /** A change of one listed node is a change of its cell. */
  lemma OneCell<V>(h: Heap<V>, h': Heap<V>, i: nat)
    requires Ordered(h) && Ordered(h') && h'.order == h.order && i < |h.order| && |h'.nodes| == |h.nodes|
    requires forall id: nat | id < |h.nodes| && id != h.order[i] :: h'.nodes[id] == h.nodes[id]
    ensures Cells(h') == Cells(h)[i := CellOf(h'.nodes[h.order[i]])]
  {
    forall k: nat | k < |h.order| && k != i ensures Cells(h')[k] == Cells(h)[k] {
      OrderReflects(h, i, k);
      OrderReflects(h, k, i);
    }
  }

  /** A handle exchanged in place. */
  lemma SetHandleCells<V>(h: Heap<V>, id: nat, handle: Option<V>)
    requires HeapOk(h) && NodeOk(h, id)
    ensures HeapOk(SetHandle(h, id, handle))
    ensures Cells(SetHandle(h, id, handle)) == WithKey(Cells(h), h.nodes[id].key, handle)
    ensures h.nodes[id].handle == HandleOf(Cells(h), h.nodes[id].key)
  {
    SetHandleKeeps(h, id, handle);
    var i := RankOfNode(h, id);
    OneCell(h, SetHandle(h, id, handle), i);
    hide LinksOk, Rank, AtomicSkipProofs.Ascending, Chained;
  }

  /** The rank of a node that fits behind position `i`. */
  lemma RankOfFit<V>(h: Heap<V>, i: nat, node: nat)
    requires Ordered(h) && FitsBehind(h, i, node)
    ensures Rank(Cells(h), h.nodes[node].key) == i + 1
    ensures h.nodes[node].key < Cells(h)[i + 1].key
  {
    CellsAscend(h);
    assert Leads(h, h.order[i + 1], 0, h.nodes[node].key);
    forall k: nat | k < i + 1 ensures Cells(h)[k].key < h.nodes[node].key {
      CellOrder(Cells(h), k, i);
    }
    RankIs(Cells(h), h.nodes[node].key, i + 1);
  }

  lemma BottomCell<V>(h: Heap<V>, i: nat, node: nat, w: Tag, k: nat)
    requires Ordered(h) && FitsBehind(h, i, node) && w.addr == node && !w.mark && !h.nodes[node].nexts[0].mark
    requires Ordered(BottomLinked(h, i, node, w)) && k <= |h.order|
    ensures Cells(BottomLinked(h, i, node, w))[k] ==
            if k == i then Cells(h)[k].(marked := false)
            else if k == i + 1 then CellOf(h.nodes[node])
            else Cells(h)[if k < i then k else k - 1]
  {
    hide Leads, Chained;
    if k < i {
      OrderReflects(h, k, i);
    } else if i + 1 < k {
      OrderReflects(h, i, k - 1);
    }
  }

  /** A node linked behind position `i`: the one before it loses its mark. */
  lemma BottomCells<V>(h: Heap<V>, i: nat, node: nat, w: Tag)
    requires HeapOk(h) && FitsBehind(h, i, node) && w.addr == node && !w.mark && !h.nodes[node].nexts[0].mark
    ensures HeapOk(BottomLinked(h, i, node, w))
    ensures Cells(BottomLinked(h, i, node, w)) == WithKey(Cells(h), h.nodes[node].key, h.nodes[node].handle)
    ensures HandleOf(Cells(h), h.nodes[node].key) == None
  {
    hide LinksOk, Ordered, Leads, Rank, WithKey;
    BottomKeeps(h, i, node, w);
    RankOfFit(h, i, node);
    SameCells(h, i, node, w);
  }

  lemma SameCells<V>(h: Heap<V>, i: nat, node: nat, w: Tag)
    requires Ordered(h) && FitsBehind(h, i, node) && w.addr == node && !w.mark && !h.nodes[node].nexts[0].mark
    requires Ordered(BottomLinked(h, i, node, w))
    requires Rank(Cells(h), h.nodes[node].key) == i + 1 && h.nodes[node].key < Cells(h)[i + 1].key
    ensures Cells(BottomLinked(h, i, node, w)) == WithKey(Cells(h), h.nodes[node].key, h.nodes[node].handle)
    ensures HandleOf(Cells(h), h.nodes[node].key) == None
  {
    hide Ordered, Leads, Rank, WithKey;
    var a := Cells(BottomLinked(h, i, node, w));
    var b := WithKey(Cells(h), h.nodes[node].key, h.nodes[node].handle);
    WithKeyAt(Cells(h), h.nodes[node].key, h.nodes[node].handle, i, 0);
    forall k: nat | k < |a| ensures a[k] == b[k] {
      BottomCell(h, i, node, w, k);
      WithKeyAt(Cells(h), h.nodes[node].key, h.nodes[node].handle, i, k);
    }
  }

  /** Links above level 0 and unlisted nodes do not show. */
  lemma UpperCells<V>(h: Heap<V>, id: nat, level: nat, w: Tag)
    requires HasLink(h.nodes, id, level) && 0 < level
    requires Ordered(h) && Ordered(SetLink(h, id, level, w))
    ensures Cells(SetLink(h, id, level, w)) == Cells(h)
  {
  }

  lemma AppendCells<V>(h: Heap<V>, node: Node<V>)
    requires Ordered(h) && Ordered(h.(nodes := h.nodes + [node]))
    ensures Cells(h.(nodes := h.nodes + [node])) == Cells(h)
  {
  }

  /** From `below` up, the trail holds the words as they are. */
  ghost predicate Current<V>(nodes: seq<Node<V>>, trail: Trail, below: nat) {
    && |trail.preds| == |trail.succs| == TOP + 1
    && forall l: nat | below <= l <= TOP :: HasLink(nodes, trail.preds[l], l) && nodes[trail.preds[l]].nexts[l] == trail.succs[l]
  }

  /** What a lookup of a listed node's key answers, and what its node holds. */
  lemma AnswerOfNode<V>(h: Heap<V>, id: nat)
    requires Ordered(h) && Listed(h, id, 0)
    ensures Answer(Cells(h), h.nodes[id].key) == if h.nodes[id].nexts[0].mark then None else h.nodes[id].handle
    ensures HandleOf(Cells(h), h.nodes[id].key) == h.nodes[id].handle
  {
    var i := RankOfNode(h, id);
    CellsAscend(h);
    AnswerAt(Cells(h), i);
  }

  lemma AnswerWithout<V>(h: Heap<V>, key: int)
    requires Ordered(h) && !HasKey(h, key)
    ensures Answer(Cells(h), key) == None && HandleOf(Cells(h), key) == None
  {
    forall i: nat | i < |h.order| ensures Cells(h)[i].key != key {
      assert Listed(h, h.order[i], 0);
    }
    AnswerAbsent(Cells(h), key);
  }

  /** With nobody else about, the words of the trail are still there when the new node is linked. */
  lemma NewNodeStep<V>(h: Heap<V>, key: int, handle: Option<V>, trail: Trail, node: Node<V>, top: nat)
    requires HeapOk(h) && ThreadOk(h, NewNode(key, handle, trail)) && Current(h.nodes, trail, 0) && top <= TOP
    requires node == Node(key, seq(top + 1, l requires 0 <= l <= top => Tag(trail.succs[l].addr, 0, false)), handle)
    ensures var h' := h.(nodes := h.nodes + [node]);
            && HeapOk(h') && Cells(h') == Cells(h)
            && ThreadOk(h', LinkBottom(key, |h.nodes|, trail)) && Current(h'.nodes, trail, 0)
  {
    hide Ordered, LinksOk, Leads, HasKey;
    NewNodeMoves(h, NewNode(key, handle, trail), Move(0, Rest, false, top));
    AppendCells(h, node);
  }

  lemma BottomStep<V>(h: Heap<V>, key: int, id: nat, trail: Trail) returns (i: nat)
    requires HeapOk(h) && ThreadOk(h, LinkBottom(key, id, trail)) && Current(h.nodes, trail, 0)
    requires !h.nodes[id].nexts[0].mark
    ensures FitsBehind(h, i, id) && h.order[i] == trail.preds[0]
    ensures var h' := BottomLinked(h, i, id, Linked(trail.succs[0], id));
            && HeapOk(h') && Cells(h') == WithKey(Cells(h), key, h.nodes[id].handle)
            && (1 < |h.nodes[id].nexts| ==> ThreadOk(h', LinkUpper(key, id, 1, trail))) && Current(h'.nodes, trail, 1)
            && |h'.nodes| == |h.nodes| && |h'.nodes[id].nexts| == |h.nodes[id].nexts|
  {
    hide LinksOk, Ordered, Leads, TrailOk, Cells, WithKey, Place;
    var pc := LinkBottom(key, id, trail);
    i := BottomFits(h, pc);
    BottomSucceeds(h, pc, i, Move(0, Rest, false, 0));
    BottomCells(h, i, id, Linked(trail.succs[0], id));
  }

  lemma UpperStep<V>(h: Heap<V>, key: int, id: nat, level: nat, trail: Trail)
    requires HeapOk(h) && ThreadOk(h, LinkUpper(key, id, level, trail)) && Current(h.nodes, trail, level) && level <= TOP
    ensures var h' := SetLink(h, trail.preds[level], level, Linked(trail.succs[level], id));
            && HeapOk(h') && Cells(h') == Cells(h)
            && (level + 1 < |h.nodes[id].nexts| ==> ThreadOk(h', LinkUpper(key, id, level + 1, trail))) && Current(h'.nodes, trail, level + 1)
            && |h'.nodes| == |h.nodes| && |h'.nodes[id].nexts| == |h.nodes[id].nexts|
  {
    var pc := LinkUpper(key, id, level, trail);
    UpperPred(h, pc);
    hide LinksOk, Ordered, TrailOk, Cells;
    var w := Linked(trail.succs[level], id);
    SetLinkKeeps(h, trail.preds[level], level, w);
    AfterUpper(h, SetLink(h, trail.preds[level], level, w), pc);
    UpperCells(h, trail.preds[level], level, w);
  }

  lemma CountIsApart<V>(h: Heap<V>, n: int)
    requires HeapOk(h)
    ensures HeapOk(h.(nodeNum := n)) && Cells(h.(nodeNum := n)) == Cells(h)
  {
    forall id: nat, level: nat | Listed(h, id, level) && id != TAIL
      ensures Leads(h.(nodeNum := n), h.nodes[id].nexts[level].addr, level, h.nodes[id].key)
    {
      assert Leads(h, h.nodes[id].nexts[level].addr, level, h.nodes[id].key);
    }
  }

  ghost function MarkNode<V>(h: Heap<V>, id: nat): Heap<V>
    requires HasLink(h.nodes, id, 0)
  {
    var w := h.nodes[id].nexts[0];
    SetHandle(SetLink(h, id, 0, AddVersion(Tag(w.addr, w.version, true), 1)), id, None)
  }

  lemma MarkNodeKeeps<V>(h: Heap<V>, id: nat)
    requires HeapOk(h) && NodeOk(h, id)
    ensures HeapOk(MarkNode(h, id))
  {
    var w := h.nodes[id].nexts[0];
    var w' := AddVersion(Tag(w.addr, w.version, true), 1);
    assert id != TAIL;
    assert Leads(h, w.addr, 0, h.nodes[id].key);
    hide LinksOk, Ordered;
    SetLinkKeeps(h, id, 0, w');
    SetHandleKeeps(SetLink(h, id, 0, w'), id, None);
  }

  /** A marked cell stays as it is; an unmarked one is marked and emptied. */
  lemma DeletedCells<V>(h: Heap<V>, id: nat)
    requires HeapOk(h) && NodeOk(h, id)
    ensures h.nodes[id].nexts[0].mark ==> Deleted(Cells(h), h.nodes[id].key) == Cells(h)
    ensures !h.nodes[id].nexts[0].mark ==> HeapOk(MarkNode(h, id)) && Cells(MarkNode(h, id)) == Deleted(Cells(h), h.nodes[id].key)
  {
    MarkNodeKeeps(h, id);
    var i := RankOfNode(h, id);
    OneCell(h, MarkNode(h, id), i);
    hide LinksOk, Rank, AtomicSkipProofs.Ascending, Chained;
  }

  class AtomicSkipList<V> {
    var nodes: seq<Node<V>>
    var nodeNum: int
    var markedNum: int
    ghost var order: seq<nat>

    ghost function H(): Heap<V>
      reads this
    {
      Heap(nodes, order, nodeNum)
    }

    ghost predicate Valid()
      reads this
    {
      HeapOk(H()) && nodeNum >= 0 && markedNum >= 0
    }

    ghost function Level0(): seq<Cell<V>>
      reads this
      requires Valid()
    {
      Cells(H())
    }

    constructor ()
      ensures Valid() && Level0() == [Cell(MIN_KEY, false, None), Cell(MAX_KEY, false, None)]
      ensures nodeNum == markedNum == 0
    {
      nodes := [Node(MIN_KEY, seq(TOP + 1, _ => Tag(TAIL, 0, false)), None), Node(MAX_KEY, seq(TOP + 1, _ => Tag(0, 0, false)), None)];
      order := [HEAD, TAIL];
      nodeNum, markedNum := 0, 0;
      new;
      InitialInv<V>(0);
      assert Initial<V>(0).heap == H();
    }

    /** On each level the last node before `key` and the word it holds. */
    method Find(key: int) returns (found: bool, trail: Trail)
      requires Valid() && IsKey(key)
      ensures Current(nodes, trail, 0) && TrailOk(H(), trail, key, 0)
      ensures ThreadOk(H(), Found(Goal<V>.ForInsert(None), key, found, trail))
      ensures found <==> HasKey(H(), key)
      ensures found ==> trail.succs[0].addr < |nodes| && nodes[trail.succs[0].addr].key == key
    {
      hide HeapOk, SuccOk, HasKey, ThreadOk, TrailOk;
      var pred := HEAD;
      found, trail := false, Trail(seq(TOP + 1, _ => 0), seq(TOP + 1, _ => Tag(0, 0, false)));
      StartFindOk(H(), Goal<V>.ForInsert(None), key);
      var level: nat := TOP;
      while true
        invariant level <= TOP && ThreadOk(H(), Pc.Find(ForInsert(None), key, level, pred, found, trail))
        invariant Current(nodes, trail, level + 1)
        decreases level
      {
        FindOverOrDown(H(), Pc.Find(ForInsert(None), key, level, pred, found, trail));
        var curr := nodes[pred].nexts[level];
        while nodes[curr.addr].key < key
          invariant ThreadOk(H(), Pc.Find(ForInsert(None), key, level, pred, found, trail))
          invariant HasLink(nodes, pred, level) && curr == nodes[pred].nexts[level] && nodes[pred].key < key
          invariant Leads(H(), curr.addr, level, nodes[pred].key)
          decreases key - nodes[pred].key
        {
          FindOverOrDown(H(), Pc.Find(ForInsert(None), key, level, pred, found, trail));
          pred := curr.addr;
          curr := nodes[pred].nexts[level];
          FindOverOrDown(H(), Pc.Find(ForInsert(None), key, level, pred, found, trail));
        }
        ghost var pc := Pc.Find(Goal<V>.ForInsert(None), key, level, pred, found, trail);
        FindOverOrDown(H(), pc);
        trail := Trail(trail.preds[level := pred], trail.succs[level := curr]);
        found := found || nodes[curr.addr].key == key;
        if level == 0 {
          FindEnds(H(), pc);
          return;
        }
        level := level - 1;
      }
    }

    /** The unmarked node of a key. */
    method GetNode(key: int) returns (found: bool, node: nat)
      requires Valid() && IsKey(key)
      ensures found ==> NodeOk(H(), node) && nodes[node].key == key && !nodes[node].nexts[0].mark
      ensures found ==> Answer(Level0(), key) == nodes[node].handle
      ensures !found ==> Answer(Level0(), key) == None
    {
      hide Ordered, LinksOk, Answer, Cells, HasKey;
      var trail;
      found, trail := Find(key);
      if !found {
        AnswerWithout(H(), key);
        return false, HEAD;
      }
      node := trail.succs[0].addr;
      AnswerOfNode(H(), node);
      if nodes[node].nexts[0].mark {
        return false, HEAD;
      }
      return true, node;
    }

    method Get(key: int) returns (handle: Option<V>)
      requires Valid() && IsKey(key)
      ensures handle == Answer(Level0(), key)
    {
      hide Ordered, LinksOk, Answer, Cells;
      var found, node := GetNode(key);
      if !found {
        return None;
      }
      return nodes[node].handle;
    }

    /** Any level the coin may give. */
    method RandomLevel() returns (level: nat)
      ensures level <= TOP
    {
      level :| level <= TOP;
    }

    /** A compare-and-swap of the whole word. */
    method LinkLevel(pred: nat, expected: Tag, node: nat, level: nat) returns (linked: bool)
      requires HasLink(nodes, pred, level)
      modifies this`nodes
      ensures linked <==> old(nodes[pred].nexts[level]) == expected
      ensures nodes == if linked then SetLink(old(H()), pred, level, Linked(expected, node)).nodes else old(nodes)
    {
      if nodes[pred].nexts[level] != expected {
        return false;
      }
      var n := nodes[pred];
      nodes := nodes[pred := n.(nexts := n.nexts[level := Linked(expected, node)])];
      return true;
    }

    method LinkNode(key: int, handle: Option<V>, trail: Trail)
      requires Valid() && ThreadOk(H(), NewNode(key, handle, trail)) && Current(nodes, trail, 0)
      modifies this`nodes, this`order
      ensures Valid() && Level0() == WithKey(old(Level0()), key, handle)
      ensures |order| == |old(order)| + 1
    {
      hide HeapOk, ThreadOk, Cells, WithKey;
      var top := RandomLevel();
      var id := |nodes|;
      var node := Node(key, seq(top + 1, l requires 0 <= l <= top => Tag(trail.succs[l].addr, 0, false)), handle);
      NewNodeStep(H(), key, handle, trail, node, top);
      nodes := nodes + [node];
      ghost var i := BottomStep(H(), key, id, trail);
      var linked := LinkLevel(trail.preds[0], trail.succs[0], id, 0);
      order := Placed(order, i, id);
      var level: nat := 1;
      while level <= top
        invariant 1 <= level <= top + 1
        invariant |order| == |old(order)| + 1
        invariant HeapOk(H()) && Level0() == WithKey(old(Level0()), key, handle)
        invariant level <= top ==> ThreadOk(H(), LinkUpper(key, id, level, trail))
        invariant Current(nodes, trail, level) && id < |nodes| && |nodes[id].nexts| == top + 1
      {
        UpperStep(H(), key, id, level, trail);
        linked := LinkLevel(trail.preds[level], trail.succs[level], id, level);
        level := level + 1;
      }
    }

    method Insert(key: int, handle: Option<V>) returns (was: Option<V>)
      requires Valid() && IsKey(key)
      modifies this
      ensures Valid() && markedNum == old(markedNum)
      ensures handle.None? ==> Level0() == old(Level0()) && was.None?
      ensures handle.Some? ==> Level0() == WithKey(old(Level0()), key, handle) && was == HandleOf(old(Level0()), key)
      ensures nodeNum - |order| == old(nodeNum - |order|)
    {
      hide Ordered, LinksOk, Cells, HasKey;
      if handle.None? {
        return None;
      }
      var found, trail := Find(key);
      if found {
        var node := trail.succs[0].addr;
        SetHandleCells(H(), node, handle);
        was := nodes[node].handle;
        nodes := nodes[node := nodes[node].(handle := handle)];
      } else {
        AnswerWithout(H(), key);
        LinkNode(key, handle, trail);
        CountIsApart(H(), nodeNum + 1);
        nodeNum := nodeNum + 1;
        was := None;
      }
    }

    /** Marks the bottom link and empties the handle; the mark is counted if the handle had a charge. */
    method MarkDeleted(node: nat, charge: V -> int) returns (freed: int)
      requires Valid() && NodeOk(H(), node)
      modifies this
      ensures Valid() && nodeNum == old(nodeNum) && order == old(order)
      ensures Level0() == Deleted(old(Level0()), old(nodes[node].key))
      ensures freed == if old(nodes[node].nexts[0].mark || nodes[node].handle.None?) then 0 else charge(old(nodes[node].handle.value))
      ensures markedNum == old(markedNum) + if freed > 0 then 1 else 0
    {
      hide Ordered, LinksOk, Cells;
      var w := nodes[node].nexts[0];
      DeletedCells(H(), node);
      if w.mark {
        return 0;
      }
      var handle := nodes[node].handle;
      var n := nodes[node];
      nodes := nodes[node := n.(nexts := n.nexts[0 := AddVersion(Tag(w.addr, w.version, true), 1)], handle := None)];
      assert H() == MarkNode(old(H()), node);
      freed := if handle.Some? then charge(handle.value) else 0;
      if freed > 0 {
        markedNum := markedNum + 1;
      }
    }
  }

  /**
   Inserting, deleting and inserting a key again hides it from one thread on its own; inserting the
   next key brings it back.
   */
  method InsertIsHiddenAndRevived<V>(k: int, first: V, second: V, other: V, charge: V -> int) returns (hidden: Option<V>, revived: Option<V>)
    requires IsKey(k) && IsKey(k + 1)
    ensures hidden == None && revived == Some(second)
  {
    hide HeapOk, Ordered, LinksOk, Cells, WithKey, Deleted, Answer, Rank;
    var list := new AtomicSkipList<V>();
    ghost var empty := list.Level0();
    var was := list.Insert(k, Some(first));
    ghost var cs: seq<Cell<V>> := [Cell(MIN_KEY, false, None), Cell(k, false, Some(first)), Cell(MAX_KEY, false, None)];
    FirstInsert(k, first);
    AnswerAt(cs, 1);
    var found, node := list.GetNode(k);
    var freed := list.MarkDeleted(node, charge);
    was := list.Insert(k, Some(second));
    ReinsertedIsHidden(cs, 1, second);
    hidden := list.Get(k);
    was := list.Insert(k + 1, Some(other));
    NeighbourRevives(cs, 1, second, k + 1, Some(other));
    revived := list.Get(k);
  }

  lemma FirstInsert<V>(k: int, v: V)
    requires IsKey(k)
    ensures WithKey([Cell(MIN_KEY, false, None), Cell(MAX_KEY, false, None)], k, Some(v))
         == [Cell(MIN_KEY, false, None), Cell(k, false, Some(v)), Cell(MAX_KEY, false, None)]
  {
    var cs: seq<Cell<V>> := [Cell(MIN_KEY, false, None), Cell(MAX_KEY, false, None)];
    RankIs(cs, k, 1);
  }
}
