/** Rebuilding a bucket: the new list holds what lookups of the old one could see, and nothing else. */
module Compaction {
  import opened Options
  import opened AtomicSkipMachine
  import opened AtomicSkipProofs
  import opened SkipCells
  import opened AtomicSkipObject

  /** Level 0 with head and tail around `cs`. */
  ghost function Framed<V>(cs: seq<Cell<V>>): seq<Cell<V>> {
    [Cell(MIN_KEY, false, None)] + cs + [Cell(MAX_KEY, false, None)]
  }

  lemma AppendLive<V>(cs: seq<Cell<V>>, c: Cell<V>)
    requires SkipCells.Ascending(Framed(cs)) && IsKey(c.key) && c.Live()
    requires forall i: nat | i < |cs| :: cs[i].Live() && cs[i].key < c.key
    ensures WithKey(Framed(cs), c.key, c.handle) == Framed(cs + [c])
  {
    var f := Framed(cs);
    var p := |cs| + 1;
    RankIs(f, c.key, p);
    assert f[p - 1].(marked := false) == f[p - 1];
    assert f[..p - 1] + [f[p - 1]] == f[..p];
    assert WithKey(f, c.key, c.handle) == f[..p] + [c] + f[p..];
  }

  lemma FramedAnswers<V>(cs: seq<Cell<V>>, key: int)
    requires SkipCells.Ascending(Framed(cs)) && forall i: nat | i < |cs| :: cs[i].Live()
    ensures Compacted(Framed(cs)) == cs
    ensures Answer(Framed(cs), key) == Answer(cs, key)
  {
    var head, tail := [Cell<V>.Cell(MIN_KEY, false, None)], [Cell<V>.Cell(MAX_KEY, false, None)];
    CompactedLive(cs);
    CompactedSplits(head + cs, tail);
    CompactedSplits(head, cs);
    assert Compacted(head) == [] && Compacted(tail) == [];
    CompactedAnswers(Framed(cs), key);
  }

  /** One more cell of the old list. */
  lemma CompactedNext<V>(cs: seq<Cell<V>>, i: nat)
    requires SkipCells.Ascending(cs) && i < |cs|
    ensures Compacted(cs[..i + 1]) == Compacted(cs[..i]) + if cs[i].Live() then [cs[i]] else []
    ensures var before := Compacted(cs[..i]); forall k: nat | k < |before| :: before[k].key < cs[i].key
  {
    assert cs[..i + 1][..i] == cs[..i];
    var before := Compacted(cs[..i]);
    forall k: nat | k < |before| ensures before[k].key < cs[i].key {
      var j: nat :| j < i && cs[..i][j] == before[k];
    }
  }

  /** Inserting the next cell, or passing over it, compacts one cell more. */
  lemma CompactedGrows<V>(cs: seq<Cell<V>>, i: nat)
    requires SkipCells.Ascending(cs) && i < |cs| && SkipCells.Ascending(Framed(Compacted(cs[..i])))
    ensures !cs[i].Live() ==> Compacted(cs[..i + 1]) == Compacted(cs[..i])
    ensures cs[i].Live() && IsKey(cs[i].key) ==>
      WithKey(Framed(Compacted(cs[..i])), cs[i].key, cs[i].handle) == Framed(Compacted(cs[..i + 1]))
  {
    CompactedNext(cs, i);
    if cs[i].Live() && IsKey(cs[i].key) {
      AppendLive(Compacted(cs[..i]), cs[i]);
    }
  }

  lemma Rebuilt<V>(cs: seq<Cell<V>>)
    requires SkipCells.Ascending(cs) && SkipCells.Ascending(Framed(Compacted(cs)))
    ensures forall key :: Answer(Framed(Compacted(cs)), key) == Answer(cs, key)
  {
    forall key ensures Answer(Framed(Compacted(cs)), key) == Answer(cs, key) {
      FramedAnswers(Compacted(cs), key);
      CompactedAnswers(cs, key);
    }
  }

  lemma FramedLength<V>(cs: seq<Cell<V>>)
    ensures |Framed(cs)| == |cs| + 2
  {
  }

  /** The ratio below which a bucket is left alone; without nodes it is not a number and not below. */
  predicate FewMarked(markedNum: int, nodeNum: int) {
    nodeNum != 0 && markedNum as real / nodeNum as real < 0.3
  }

  /** The ratio is compared as the whole numbers 10 and 3 say. */
  lemma FewMarkedExactly(markedNum: nat, nodeNum: nat)
    ensures FewMarked(markedNum, nodeNum) <==> 10 * markedNum < 3 * nodeNum
  {
    if nodeNum > 0 {
      var x := nodeNum as real;
      var ratio := markedNum as real / x;
      assert ratio * x == markedNum as real;
      if ratio < 0.3 {
        Scaled(0.3 - ratio, x);
      } else if ratio > 0.3 {
        Scaled(ratio - 0.3, x);
      }
      assert (0.3 - ratio) * x == 0.3 * x - ratio * x;
    }
  }

  lemma Scaled(d: real, x: real)
    requires d > 0.0 && x > 0.0
    ensures d * x > 0.0
  {
  }

  /** The walk over level 0 of the old list, inserting every unmarked node's handle into the new one. */
  method CopyVisible<V>(bucket: AtomicSkipList<V>, list: AtomicSkipList<V>)
    requires bucket != list && bucket.Valid() && list.Valid()
    requires list.Level0() == [Cell(MIN_KEY, false, None), Cell(MAX_KEY, false, None)] && list.nodeNum == list.markedNum == 0
    modifies list
    ensures list.Valid() && list.Level0() == Framed(Compacted(bucket.Level0()))
    ensures list.markedNum == 0 && list.nodeNum + 2 == |list.Level0()|
  {
    hide HeapOk, Cells, SkipCells.Ascending, Compacted, Answer, WithKey, Framed, IsKey;
    ghost var cs := bucket.Level0();
    CellsFacts(bucket.H());
    CellsFacts(list.H());
    StartCompacting(cs);
    var pred := HEAD;
    ghost var i: nat := 0;
    while true
      invariant i + 1 < |cs| && bucket.order[i] == pred
      invariant list.Valid() && list.Level0() == Framed(Compacted(cs[..i + 1]))
      invariant list.markedNum == 0 && list.nodeNum + 2 == |list.order|
      decreases |cs| - i
    {
      NextCell(bucket.H(), i);
      CellsFacts(list.H());
      CompactedGrows(cs, i + 1);
      var curr := bucket.nodes[pred].nexts[0].addr;
      i := i + 1;
      if bucket.nodes[curr].nexts[0].mark {
        pred := curr;
        continue;
      }
      if curr == TAIL {
        break;
      }
      var was := list.Insert(bucket.nodes[curr].key, bucket.nodes[curr].handle);
      pred := curr;
    }
    assert cs[..i + 1] == cs;
    CellsFacts(list.H());
  }

  method CompactOneBucket<V>(bucket: AtomicSkipList?<V>) returns (rebuilt: AtomicSkipList?<V>)
    requires bucket != null ==> bucket.Valid()
    ensures rebuilt == null <==> bucket == null || 10 * bucket.markedNum < 3 * bucket.nodeNum
    ensures rebuilt != null ==> fresh(rebuilt) && rebuilt.Valid()
    ensures rebuilt != null ==> rebuilt.Level0() == Framed(Compacted(bucket.Level0()))
    ensures rebuilt != null ==> rebuilt.nodeNum == |Compacted(bucket.Level0())| && rebuilt.markedNum == 0
    ensures rebuilt != null ==> forall key | IsKey(key) :: Answer(rebuilt.Level0(), key) == Answer(bucket.Level0(), key)
  {
    if bucket != null {
      FewMarkedExactly(bucket.markedNum, bucket.nodeNum);
    }
    if bucket == null || FewMarked(bucket.markedNum, bucket.nodeNum) {
      return null;
    }
    hide HeapOk, Cells, SkipCells.Ascending, Compacted, Answer, WithKey, Framed, IsKey, FewMarked;
    var list := new AtomicSkipList<V>();
    CopyVisible(bucket, list);
    CellsFacts(bucket.H());
    CellsFacts(list.H());
    FramedLength(Compacted(bucket.Level0()));
    Rebuilt(bucket.Level0());
    return list;
  }

  lemma CellsFacts<V>(h: Heap<V>)
    requires HeapOk(h)
    ensures |Cells(h)| == |h.order| && 2 <= |h.order| && h.order[0] == HEAD && SkipCells.Ascending(Cells(h))
    ensures Cells(h)[0] == Cell(MIN_KEY, Cells(h)[0].marked, None)
  {
    CellsAscend(h);
  }

  lemma StartCompacting<V>(cs: seq<Cell<V>>)
    requires cs != [] && cs[0].handle.None?
    ensures Framed(Compacted(cs[..1])) == [Cell(MIN_KEY, false, None), Cell(MAX_KEY, false, None)]
  {
    assert cs[..1][..0] == [];
  }

  lemma NextCell<V>(h: Heap<V>, i: nat)
    requires HeapOk(h) && i + 1 < |h.order|
    ensures HasLink(h.nodes, h.order[i], 0)
    ensures var curr := h.nodes[h.order[i]].nexts[0].addr;
            && curr < |h.nodes| && 0 < |h.nodes[curr].nexts|
            && curr == h.order[i + 1] && Cells(h)[i + 1] == CellOf(h.nodes[curr])
            && (curr == TAIL <==> i + 2 == |h.order|) && (curr != TAIL ==> IsKey(h.nodes[curr].key))
            && (curr == TAIL ==> !Cells(h)[i + 1].marked && Cells(h)[i + 1].handle.None?)
  {
    OrderReflects(h, i + 1, |h.order| - 1);
    OrderReflects(h, |h.order| - 1, i + 1);
    OrderReflects(h, 0, i + 1);
  }
}
