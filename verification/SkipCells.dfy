/**
 Level 0 of the concurrent skip list as a value: what one thread alone can observe of it, and what
 its operations do to that.
 */
module SkipCells {
  import opened Options
  import opened AtomicSkipMachine

  datatype Cell<+V> = Cell(key: int, marked: bool, handle: Option<V>) {
    predicate Live() {
      !marked && handle.Some?
    }
  }

  ghost predicate Ascending<V>(cs: seq<Cell<V>>) {
    forall i: nat, j: nat | i < j < |cs| :: cs[i].key < cs[j].key
  }

  /** What a lookup of `key` answers: the handle of its node, unless it is marked. */
  ghost function Answer<V>(cs: seq<Cell<V>>, key: int): Option<V> {
    if cs == [] then None
    else if cs[0].key == key then (if cs[0].marked then None else cs[0].handle)
    else Answer(cs[1..], key)
  }

  lemma {:induction false} AnswerAt<V>(cs: seq<Cell<V>>, i: nat)
    requires Ascending(cs) && i < |cs|
    ensures Answer(cs, cs[i].key) == if cs[i].marked then None else cs[i].handle
  {
    if i > 0 {
      AnswerAt(cs[1..], i - 1);
    }
  }

  lemma {:induction false} AnswerAbsent<V>(cs: seq<Cell<V>>, key: int)
    requires forall i: nat | i < |cs| :: cs[i].key != key
    ensures Answer(cs, key) == None
  {
    if cs != [] {
      AnswerAbsent(cs[1..], key);
    }
  }

  lemma CellOrder<V>(cs: seq<Cell<V>>, i: nat, j: nat)
    requires Ascending(cs) && i < |cs| && j < |cs|
    ensures i < j <==> cs[i].key < cs[j].key
  {
  }

  // ---- Insert ----

  /** The number of cells with smaller keys. */
  ghost function Rank<V>(cs: seq<Cell<V>>, key: int): (p: nat)
    ensures p <= |cs| && forall i: nat | i < p :: cs[i].key < key
    ensures p < |cs| ==> key <= cs[p].key
  {
    if cs == [] || key <= cs[0].key then 0 else 1 + Rank(cs[1..], key)
  }

  lemma RankIs<V>(cs: seq<Cell<V>>, key: int, p: nat)
    requires Ascending(cs) && p <= |cs|
    requires forall i: nat | i < p :: cs[i].key < key
    requires p < |cs| ==> key <= cs[p].key
    ensures Rank(cs, key) == p
  {
    var r := Rank(cs, key);
    if r < p {
      assert false;
    } else if p < r {
      assert false;
    }
  }

  /** A present key gets the new handle; a new cell unmarks the one before it. */
  ghost function WithKey<V>(cs: seq<Cell<V>>, key: int, handle: Option<V>): seq<Cell<V>> {
    var p := Rank(cs, key);
    if p < |cs| && cs[p].key == key then cs[p := cs[p].(handle := handle)]
    else if p == 0 then [Cell(key, false, handle)] + cs
    else cs[..p - 1] + [cs[p - 1].(marked := false), Cell(key, false, handle)] + cs[p..]
  }

  /** A new cell, cell by cell. */
  lemma WithKeyAt<V>(cs: seq<Cell<V>>, key: int, handle: Option<V>, i: nat, k: nat)
    requires i + 1 < |cs| && Rank(cs, key) == i + 1 && key < cs[i + 1].key && k <= |cs|
    ensures |WithKey(cs, key, handle)| == |cs| + 1
    ensures WithKey(cs, key, handle)[k] ==
            if k == i then cs[i].(marked := false)
            else if k == i + 1 then Cell(key, false, handle)
            else cs[if k < i then k else k - 1]
  {
  }

  /** Whether inserting `key` lets the marked cell of `k` answer again. */
  ghost predicate Revives<V>(cs: seq<Cell<V>>, key: int, k: int) {
    var p := Rank(cs, key);
    && !(p < |cs| && cs[p].key == key)
    && 0 < p && cs[p - 1].key == k && cs[p - 1].marked && cs[p - 1].handle.Some?
  }

  ghost predicate HasMarked<V>(cs: seq<Cell<V>>, key: int) {
    exists i: nat :: i < |cs| && cs[i].key == key && cs[i].marked
  }

  lemma SplicedAscends<V>(cs: seq<Cell<V>>, p: nat, r: seq<Cell<V>>)
    requires Ascending(cs) && p <= |cs| && |r| == |cs| + 1
    requires forall i: nat | i < p :: r[i].key == cs[i].key
    requires forall i: nat | p < i <= |cs| :: r[i].key == cs[i - 1].key
    requires (p > 0 ==> cs[p - 1].key < r[p].key) && (p < |cs| ==> r[p].key < cs[p].key)
    ensures Ascending(r)
  {
    forall i: nat, j: nat | i < j < |r| ensures r[i].key < r[j].key {
      if j == p {
        CellOrder(cs, i, p - 1);
      } else if i == p {
        CellOrder(cs, p, j - 1);
      } else {
        CellOrder(cs, if i < p then i else i - 1, if j < p then j else j - 1);
      }
    }
  }

  lemma WithNewKeyAt<V>(cs: seq<Cell<V>>, key: int, handle: Option<V>, i: nat)
    requires var p := Rank(cs, key); !(p < |cs| && cs[p].key == key)
    requires i <= |cs|
    ensures var p, r := Rank(cs, key), WithKey(cs, key, handle);
            |r| == |cs| + 1 && r[i].key == if i < p then cs[i].key else if i == p then key else cs[i - 1].key
  {
    hide Rank;
  }

  /** The keys with a new one among them. */
  lemma WithNewKey<V>(cs: seq<Cell<V>>, key: int, handle: Option<V>)
    requires var p := Rank(cs, key); !(p < |cs| && cs[p].key == key)
    ensures var p, r := Rank(cs, key), WithKey(cs, key, handle);
            && |r| == |cs| + 1 && r[p].key == key
            && (forall i: nat | i < p :: r[i].key == cs[i].key)
            && (forall i: nat | p < i <= |cs| :: r[i].key == cs[i - 1].key)
  {
    var p, r := Rank(cs, key), WithKey(cs, key, handle);
    WithNewKeyAt(cs, key, handle, p);
    forall i: nat | i <= |cs| ensures r[i].key == if i < p then cs[i].key else if i == p then key else cs[i - 1].key {
      WithNewKeyAt(cs, key, handle, i);
    }
    hide Rank, WithKey;
  }

  lemma WithKeyAscends<V>(cs: seq<Cell<V>>, key: int, handle: Option<V>)
    requires Ascending(cs)
    ensures Ascending(WithKey(cs, key, handle))
  {
    hide Rank;
    var p := Rank(cs, key);
    var r := WithKey(cs, key, handle);
    if p < |cs| && cs[p].key == key {
      assert forall i: nat | i < |cs| :: r[i].key == cs[i].key;
    } else {
      WithNewKey(cs, key, handle);
      hide WithKey;
      SplicedAscends(cs, p, r);
    }
  }

  /** An insert is seen by the next lookup exactly if the key's node, if any, is not marked. */
  lemma InsertThenGet<V>(cs: seq<Cell<V>>, key: int, value: V)
    requires Ascending(cs)
    ensures Answer(WithKey(cs, key, Some(value)), key) == Some(value) <==> !HasMarked(cs, key)
    ensures HasMarked(cs, key) ==> Answer(WithKey(cs, key, Some(value)), key) == None
  {
    var p := Rank(cs, key);
    var r := WithKey(cs, key, Some(value));
    WithKeyAscends(cs, key, Some(value));
    assert r[p].key == key;
    AnswerAt(r, p);
    forall i: nat | i < |cs| && cs[i].key == key ensures i == p {
      RankIs(cs, key, i);
    }
  }

  ghost predicate Adds<V>(cs: seq<Cell<V>>, key: int) {
    var p := Rank(cs, key);
    !(p < |cs| && cs[p].key == key)
  }

  /** Where the cell at `i` is after the insert, and that at most its mark has changed. */
  lemma WithKeyCell<V>(cs: seq<Cell<V>>, key: int, handle: Option<V>, i: nat)
    requires i < |cs| && cs[i].key != key
    ensures var p := Rank(cs, key);
            var j := if Adds(cs, key) && p <= i then i + 1 else i;
            && j < |WithKey(cs, key, handle)|
            && WithKey(cs, key, handle)[j] == if Adds(cs, key) && i == p - 1 then cs[i].(marked := false) else cs[i]
  {
    hide Rank;
  }

  lemma WithKeyElsewhere<V>(cs: seq<Cell<V>>, key: int, handle: Option<V>, j: nat)
    requires j < |WithKey(cs, key, handle)| && WithKey(cs, key, handle)[j].key != key
    ensures exists i: nat :: i < |cs| && cs[i].key == WithKey(cs, key, handle)[j].key
  {
    hide Rank;
    var p := Rank(cs, key);
    assert WithKey(cs, key, handle)[j].key == cs[if Adds(cs, key) && p <= j then j - 1 else j].key;
  }

  /** An insert changes the answer for another key exactly if it revives a marked node that was given a handle. */
  lemma InsertElsewhere<V>(cs: seq<Cell<V>>, key: int, handle: Option<V>, k: int)
    requires Ascending(cs) && k != key
    ensures Answer(WithKey(cs, key, handle), k) == Answer(cs, k) <==> !Revives(cs, key, k)
  {
    hide Rank, Answer, WithKey;
    var p := Rank(cs, key);
    var r := WithKey(cs, key, handle);
    WithKeyAscends(cs, key, handle);
    if i: nat :| i < |cs| && cs[i].key == k {
      WithKeyCell(cs, key, handle, i);
      AnswerAt(cs, i);
      AnswerAt(r, if Adds(cs, key) && p <= i then i + 1 else i);
      if 0 < p {
        CellOrder(cs, i, p - 1);
        CellOrder(cs, p - 1, i);
      }
    } else {
      AnswerAbsent(cs, k);
      forall j: nat | j < |r| ensures r[j].key != k {
        if r[j].key == k {
          WithKeyElsewhere(cs, key, handle, j);
        }
      }
      AnswerAbsent(r, k);
    }
  }

  // ---- Delete ----

  /** Deleting marks the key's cell and empties it, once. */
  ghost function Deleted<V>(cs: seq<Cell<V>>, key: int): seq<Cell<V>> {
    var p := Rank(cs, key);
    if p < |cs| && cs[p].key == key && !cs[p].marked then cs[p := Cell(key, true, None)] else cs
  }

  /** A deleted key answers nothing, and no other answer changes. */
  lemma DeleteThenGet<V>(cs: seq<Cell<V>>, key: int, k: int)
    requires Ascending(cs)
    ensures Ascending(Deleted(cs, key))
    ensures Answer(Deleted(cs, key), k) == if k == key then None else Answer(cs, k)
  {
    var p := Rank(cs, key);
    var r := Deleted(cs, key);
    assert forall i: nat | i < |cs| :: r[i].key == cs[i].key;
    if i: nat :| i < |cs| && cs[i].key == k {
      AnswerAt(cs, i);
      AnswerAt(r, i);
      if k == key {
        RankIs(cs, key, i);
      }
    } else {
      AnswerAbsent(cs, k);
      AnswerAbsent(r, k);
    }
  }

  // ---- Both failures happen ----

  lemma DeletedAt<V>(cs: seq<Cell<V>>, i: nat)
    requires Ascending(cs) && i < |cs| && !cs[i].marked
    ensures Deleted(cs, cs[i].key) == cs[i := Cell(cs[i].key, true, None)]
  {
    RankIs(cs, cs[i].key, i);
  }

  lemma WithKeyPresent<V>(cs: seq<Cell<V>>, i: nat, handle: Option<V>)
    requires Ascending(cs) && i < |cs|
    ensures WithKey(cs, cs[i].key, handle) == cs[i := cs[i].(handle := handle)]
  {
    RankIs(cs, cs[i].key, i);
  }

  /** Deleting a key and inserting it again leaves a marked cell with a handle in it. */
  lemma Reinserted<V>(cs: seq<Cell<V>>, i: nat, v: V)
    requires Ascending(cs) && i < |cs| && !cs[i].marked
    ensures WithKey(Deleted(cs, cs[i].key), cs[i].key, Some(v)) == cs[i := Cell(cs[i].key, true, Some(v))]
  {
    var k := cs[i].key;
    var del := cs[i := Cell(k, true, None)];
    DeletedAt(cs, i);
    assert forall j: nat | j < |cs| :: del[j].key == cs[j].key;
    WithKeyPresent(del, i, Some(v));
  }

  /** A key inserted, deleted and inserted again is not found. */
  lemma ReinsertedIsHidden<V>(cs: seq<Cell<V>>, i: nat, v: V)
    requires Ascending(cs) && i < |cs| && !cs[i].marked
    ensures Answer(WithKey(Deleted(cs, cs[i].key), cs[i].key, Some(v)), cs[i].key) == None
  {
    Reinserted(cs, i, v);
    var r := cs[i := Cell(cs[i].key, true, Some(v))];
    assert forall j: nat | j < |cs| :: r[j].key == cs[j].key;
    AnswerAt(r, i);
  }

  /** ... until a key is inserted right behind it. */
  lemma NeighbourRevives<V>(cs: seq<Cell<V>>, i: nat, v: V, key: int, handle: Option<V>)
    requires Ascending(cs) && i < |cs| && !cs[i].marked
    requires cs[i].key < key && (i + 1 < |cs| ==> key < cs[i + 1].key)
    ensures Answer(WithKey(WithKey(Deleted(cs, cs[i].key), cs[i].key, Some(v)), key, handle), cs[i].key) == Some(v)
  {
    Reinserted(cs, i, v);
    var k := cs[i].key;
    var r := cs[i := Cell(k, true, Some(v))];
    assert forall j: nat | j < |cs| :: r[j].key == cs[j].key;
    RankIs(r, key, i + 1);
    NeighbourUnmarked(r, i, key, handle);
    WithKeyAscends(r, key, handle);
    hide WithKey;
    AnswerAt(WithKey(r, key, handle), i);
  }

  lemma NeighbourUnmarked<V>(cs: seq<Cell<V>>, i: nat, key: int, handle: Option<V>)
    requires i < |cs| && Rank(cs, key) == i + 1 && (i + 1 < |cs| ==> cs[i + 1].key != key)
    ensures i < |WithKey(cs, key, handle)| && WithKey(cs, key, handle)[i] == cs[i].(marked := false)
  {
    hide Rank;
  }

  // ---- Compaction ----

  /** The cells a lookup can see. */
  ghost function Compacted<V>(cs: seq<Cell<V>>): (r: seq<Cell<V>>)
    ensures forall i: nat | i < |r| :: r[i].Live() && r[i] in cs
  {
    if cs == [] then [] else
      var c := cs[|cs| - 1];
      Compacted(cs[..|cs| - 1]) + if c.Live() then [c] else []
  }

  lemma {:induction false} CompactedAscends<V>(cs: seq<Cell<V>>)
    requires Ascending(cs)
    ensures Ascending(Compacted(cs))
  {
    if cs != [] {
      CompactedAscends(cs[..|cs| - 1]);
    }
  }

  lemma {:induction false} CompactedKeeps<V>(cs: seq<Cell<V>>, c: Cell<V>)
    requires c in cs && c.Live()
    ensures c in Compacted(cs)
  {
    if cs[|cs| - 1] != c {
      CompactedKeeps(cs[..|cs| - 1], c);
    }
  }

  /** Dropping what no lookup can see changes no answer. */
  lemma CompactedAnswers<V>(cs: seq<Cell<V>>, key: int)
    requires Ascending(cs)
    ensures Answer(Compacted(cs), key) == Answer(cs, key)
  {
    var r := Compacted(cs);
    CompactedAscends(cs);
    if i: nat :| i < |cs| && cs[i].key == key {
      AnswerAt(cs, i);
      if cs[i].Live() {
        CompactedKeeps(cs, cs[i]);
        var j: nat :| j < |r| && r[j] == cs[i];
        AnswerAt(r, j);
      } else {
        forall j: nat | j < |r| ensures r[j].key != key {
          var k: nat :| k < |cs| && cs[k] == r[j];
        }
        AnswerAbsent(r, key);
      }
    } else {
      AnswerAbsent(cs, key);
      forall j: nat | j < |r| ensures r[j].key != key {
        var k: nat :| k < |cs| && cs[k] == r[j];
      }
      AnswerAbsent(r, key);
    }
  }

  lemma {:induction false} CompactedSplits<V>(a: seq<Cell<V>>, b: seq<Cell<V>>)
    ensures Compacted(a + b) == Compacted(a) + Compacted(b)
  {
    if b == [] {
      assert a + b == a;
    } else {
      var n := |b| - 1;
      assert (a + b)[..|a + b| - 1] == a + b[..n];
      CompactedSplits(a, b[..n]);
    }
  }

  lemma {:induction false} CompactedLive<V>(cs: seq<Cell<V>>)
    requires forall i: nat | i < |cs| :: cs[i].Live()
    ensures Compacted(cs) == cs
  {
    if cs != [] {
      CompactedLive(cs[..|cs| - 1]);
    }
  }
}
