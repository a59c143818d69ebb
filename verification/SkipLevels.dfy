/**
 Skip lists on values: the nodes in list order with their heights, the positions the links of each
 level lead to, and the map the list stands for. Position 0 is the head, whose key is never read.
 */
module SkipLevels {

  const MAX_LEVEL: nat := 16

  datatype Entry = Entry(key: string, value: string, height: nat)

  // ---- The order of keys ----

  /** Lexicographic order, as the comparison of C++ strings. */
  predicate Less(a: string, b: string) {
    b != [] && (a == [] || a[0] < b[0] || (a[0] == b[0] && Less(a[1..], b[1..])))
  }

  lemma {:induction false} LessIsStrict(a: string)
    ensures !Less(a, a)
  {
    if a != [] {
      LessIsStrict(a[1..]);
    }
  }

  lemma {:induction false} LessIsTransitive(a: string, b: string, c: string)
    requires Less(a, b) && Less(b, c)
    ensures Less(a, c)
  {
    if a != [] && a[0] == b[0] == c[0] {
      LessIsTransitive(a[1..], b[1..], c[1..]);
    }
  }

  lemma {:induction false} LessIsTotal(a: string, b: string)
    ensures Less(a, b) || a == b || Less(b, a)
  {
    if a != [] && b != [] && a[0] == b[0] {
      LessIsTotal(a[1..], b[1..]);
      assert a == [a[0]] + a[1..] && b == [b[0]] + b[1..];
    }
  }

  // ---- The map ----

  ghost predicate Sorted(es: seq<Entry>) {
    forall i, j | 1 <= i < j < |es| :: Less(es[i].key, es[j].key)
  }

  lemma KeysDiffer(es: seq<Entry>, i: nat, j: nat)
    requires Sorted(es) && 1 <= i < |es| && 1 <= j < |es| && es[i].key == es[j].key
    ensures i == j
  {
    LessIsStrict(es[i].key);
  }

  lemma SortedAt(es: seq<Entry>, i: nat, j: nat)
    requires Sorted(es) && 1 <= i < j < |es|
    ensures Less(es[i].key, es[j].key)
  {
  }

  ghost function Contents(es: seq<Entry>): map<string, string>
    requires Sorted(es)
  {
    assert forall i, j | 1 <= i < |es| && 1 <= j < |es| && es[i].key == es[j].key :: i == j by {
      forall i, j | 1 <= i < |es| && 1 <= j < |es| && es[i].key == es[j].key ensures i == j {
        KeysDiffer(es, i, j);
      }
    }
    map i | 1 <= i < |es| :: es[i].key := es[i].value
  }

  lemma ContentsAt(es: seq<Entry>, i: nat)
    requires Sorted(es) && 1 <= i < |es|
    ensures es[i].key in Contents(es) && Contents(es)[es[i].key] == es[i].value
  {
    forall j | 1 <= j < |es| && es[j].key == es[i].key ensures j == i {
      KeysDiffer(es, i, j);
    }
  }

  lemma ContentsKey(es: seq<Entry>, key: string) returns (i: nat)
    requires Sorted(es) && key in Contents(es)
    ensures 1 <= i < |es| && es[i].key == key
  {
    i :| 1 <= i < |es| && es[i].key == key;
  }

  /** A map that has all entries and no other key is the one the list stands for. */
  lemma ContentsIs(es: seq<Entry>, m: map<string, string>)
    requires Sorted(es)
    requires forall i | 1 <= i < |es| :: es[i].key in m && m[es[i].key] == es[i].value
    requires forall k | k in m :: exists i | 1 <= i < |es| :: es[i].key == k
    ensures Contents(es) == m
  {
    hide Contents;
    forall k | k in m ensures k in Contents(es) && Contents(es)[k] == m[k] {
      var i :| 1 <= i < |es| && es[i].key == k;
      ContentsAt(es, i);
    }
    forall k | k in Contents(es) ensures k in m {
      var i := ContentsKey(es, k);
    }
  }

  /** `p` is where `key` is or belongs. */
  ghost predicate IsRank(es: seq<Entry>, key: string, p: nat) {
    && 1 <= p <= |es|
    && (forall i | 1 <= i < p :: Less(es[i].key, key))
    && (forall i | p <= i < |es| :: !Less(es[i].key, key))
  }

  ghost function Rank(es: seq<Entry>, key: string, i: nat): (p: nat)
    requires Sorted(es) && 1 <= i <= |es|
    requires forall k | 1 <= k < i :: Less(es[k].key, key)
    ensures IsRank(es, key, p)
    decreases |es| - i
  {
    if i == |es| then i
    else if Less(es[i].key, key) then Rank(es, key, i + 1)
    else (NothingLessBeyond(es, key, i); i)
  }

  lemma NothingLessBeyond(es: seq<Entry>, key: string, p: nat)
    requires Sorted(es) && 1 <= p < |es| && !Less(es[p].key, key)
    ensures forall i | p <= i < |es| :: !Less(es[i].key, key)
  {
    forall i | p < i < |es| ensures !Less(es[i].key, key) {
      if Less(es[i].key, key) {
        LessIsTransitive(es[p].key, es[i].key, key);
      }
    }
  }

  /** The map has a key exactly when the node at its rank holds it. */
  lemma LookupAtRank(es: seq<Entry>, key: string, p: nat)
    requires Sorted(es) && IsRank(es, key, p)
    ensures key in Contents(es) <==> p < |es| && es[p].key == key
    ensures key in Contents(es) ==> Contents(es)[key] == es[p].value
  {
    LessIsStrict(key);
    if key in Contents(es) {
      var i := ContentsKey(es, key);
      ContentsAt(es, i);
      if p < i {
        SortedAt(es, p, i);
      }
    }
  }

  lemma UpdateAtRank(es: seq<Entry>, key: string, value: string, p: nat)
    requires Sorted(es) && 1 <= p < |es| && es[p].key == key
    ensures Sorted(es[p := es[p].(value := value)])
    ensures Contents(es[p := es[p].(value := value)]) == Contents(es)[key := value]
  {
    hide Contents;
    var es' := es[p := es[p].(value := value)];
    var m := Contents(es)[key := value];
    assert forall i | 0 <= i < |es| :: es'[i].key == es[i].key;
    forall i | 1 <= i < |es| ensures es'[i].key in m && m[es'[i].key] == es'[i].value {
      ContentsAt(es, i);
      if es[i].key == key {
        KeysDiffer(es, i, p);
      }
    }
    forall k | k in m ensures exists i | 1 <= i < |es'| :: es'[i].key == k {
      if k == key {
        assert es'[p].key == k;
      } else {
        var i := ContentsKey(es, k);
        assert es'[i].key == k;
      }
    }
    ContentsIs(es', m);
  }

  ghost function InsertAt(es: seq<Entry>, p: nat, e: Entry): seq<Entry>
    requires p <= |es|
  {
    es[..p] + [e] + es[p..]
  }

  ghost function RemoveAt(es: seq<Entry>, p: nat): seq<Entry>
    requires p < |es|
  {
    es[..p] + es[p + 1..]
  }

  lemma InsertKeepsOrder(es: seq<Entry>, e: Entry, p: nat)
    requires Sorted(es) && IsRank(es, e.key, p) && !(p < |es| && es[p].key == e.key)
    ensures Sorted(InsertAt(es, p, e))
  {
    forall i: nat | p <= i < |es| ensures Less(e.key, es[i].key) {
      LessIsTotal(e.key, es[i].key);
      if i > p && es[i].key == e.key {
        SortedAt(es, p, i);
      }
    }
  }

  lemma InsertAtRank(es: seq<Entry>, e: Entry, p: nat)
    requires Sorted(es) && IsRank(es, e.key, p) && !(p < |es| && es[p].key == e.key)
    ensures Sorted(InsertAt(es, p, e))
    ensures Contents(InsertAt(es, p, e)) == Contents(es)[e.key := e.value]
  {
    hide Contents, Sorted, IsRank;
    RankIsPositive(es, e.key, p);
    InsertKeepsOrder(es, e, p);
    LookupAtRank(es, e.key, p);
    var es' := InsertAt(es, p, e);
    var m := Contents(es)[e.key := e.value];
    assert es'[p] == e && forall i | 0 <= i < p :: es'[i] == es[i];
    forall i | 1 <= i < |es'| ensures es'[i].key in m && m[es'[i].key] == es'[i].value {
      if i < p {
        ContentsAt(es, i);
      } else if i > p {
        assert es'[i] == es[i - 1];
        ContentsAt(es, i - 1);
      }
    }
    forall k | k in m ensures exists i | 1 <= i < |es'| :: es'[i].key == k {
      if k == e.key {
        assert es'[p].key == k;
      } else {
        var i := ContentsKey(es, k);
        assert es'[if i < p then i else i + 1] == es[i];
      }
    }
    ContentsIs(es', m);
  }

  lemma RankIsPositive(es: seq<Entry>, key: string, p: nat)
    requires IsRank(es, key, p)
    ensures 1 <= p <= |es|
  {
  }

  lemma RemoveKeepsOrder(es: seq<Entry>, p: nat)
    requires Sorted(es) && 1 <= p < |es|
    ensures Sorted(RemoveAt(es, p))
  {
  }

  lemma RemoveAtRank(es: seq<Entry>, key: string, p: nat)
    requires Sorted(es) && 1 <= p < |es| && es[p].key == key
    ensures Sorted(RemoveAt(es, p))
    ensures Contents(RemoveAt(es, p)) == Contents(es) - {key}
  {
    hide Contents, Sorted;
    RemoveKeepsOrder(es, p);
    var es' := RemoveAt(es, p);
    var m := Contents(es) - {key};
    forall i | 1 <= i < |es'| ensures es'[i].key in m && m[es'[i].key] == es'[i].value {
      var was := if i < p then i else i + 1;
      assert es'[i] == es[was];
      ContentsAt(es, was);
      if es[was].key == key {
        KeysDiffer(es, was, p);
      }
    }
    forall k | k in m ensures exists i | 1 <= i < |es'| :: es'[i].key == k {
      var i := ContentsKey(es, k);
      assert es'[if i < p then i else i - 1] == es[i];
    }
    ContentsIs(es', m);
  }

  // ---- The levels ----

  /** The first position from `p` on whose node reaches `level`, or the end. */
  ghost function Next(es: seq<Entry>, p: nat, level: nat): (j: nat)
    requires p <= |es|
    ensures p <= j <= |es| && (j < |es| ==> level < es[j].height)
    ensures forall k | p <= k < j :: es[k].height <= level
    decreases |es| - p
  {
    if p == |es| || level < es[p].height then p else Next(es, p + 1, level)
  }

  /** `Next` is determined by its contract. */
  lemma NextIs(es: seq<Entry>, p: nat, level: nat, j: nat)
    requires p <= j <= |es| && (j < |es| ==> level < es[j].height)
    requires forall k | p <= k < j :: es[k].height <= level
    ensures Next(es, p, level) == j
  {
    var n := Next(es, p, level);
    if n < j {
      assert false;
    }
  }

  lemma NextFacts(es: seq<Entry>, p: nat, level: nat)
    requires p <= |es|
    ensures p <= Next(es, p, level) <= |es| && (Next(es, p, level) < |es| ==> level < es[Next(es, p, level)].height)
    ensures forall k | p <= k < Next(es, p, level) :: es[k].height <= level
  {
  }

  lemma InsertAtIndex(es: seq<Entry>, p: nat, e: Entry)
    requires p <= |es|
    ensures |InsertAt(es, p, e)| == |es| + 1
    ensures forall k: nat | k <= |es| :: InsertAt(es, p, e)[k] == if k < p then es[k] else if k == p then e else es[k - 1]
  {
  }

  lemma NextBeforeInserted(es: seq<Entry>, p: nat, e: Entry, i: nat, level: nat)
    requires i <= p <= |es|
    ensures var j := Next(es, i, level);
            Next(InsertAt(es, p, e), i, level) == if j < p then j else if level < e.height then p else j + 1
  {
    InsertAtIndex(es, p, e);
    NextFacts(es, i, level);
    hide Next, InsertAt;
    var es' := InsertAt(es, p, e);
    var j := Next(es, i, level);
    if j < p {
      NextIs(es', i, level, j);
    } else if level < e.height {
      NextIs(es', i, level, p);
    } else {
      NextIs(es', i, level, j + 1);
    }
  }

  lemma NextBeyondInserted(es: seq<Entry>, p: nat, e: Entry, i: nat, level: nat)
    requires p <= i <= |es|
    ensures Next(InsertAt(es, p, e), i + 1, level) == Next(es, i, level) + 1
  {
    var es', j := InsertAt(es, p, e), Next(es, i, level);
    forall k: int | i + 1 <= k < j + 1 ensures es'[k].height <= level {
      assert es'[k] == es[k - 1];
    }
    assert j < |es| ==> es'[j + 1] == es[j];
    hide Next, InsertAt;
    NextIs(es', i + 1, level, j + 1);
  }

  /** Where a link of the list with a node inserted at `p` leads. */
  lemma NextAfterInsert(es: seq<Entry>, p: nat, e: Entry, i: nat, level: nat)
    requires i <= |es| && p <= |es|
    ensures var j := Next(es, i, level);
            i <= p ==> Next(InsertAt(es, p, e), i, level) == if j < p then j else if level < e.height then p else j + 1
    ensures p <= i ==> Next(InsertAt(es, p, e), i + 1, level) == Next(es, i, level) + 1
  {
    hide Next, InsertAt;
    if i <= p {
      NextBeforeInserted(es, p, e, i, level);
    }
    if p <= i {
      NextBeyondInserted(es, p, e, i, level);
    }
  }

  lemma NextBeforeRemoved(es: seq<Entry>, p: nat, i: nat, level: nat)
    requires i <= p < |es|
    ensures var j := Next(es, i, level);
            Next(RemoveAt(es, p), i, level) == if j < p then j else if j == p then Next(es, p + 1, level) - 1 else j - 1
  {
    var es', j := RemoveAt(es, p), Next(es, i, level);
    var j' := if j < p then j else if j == p then Next(es, p + 1, level) - 1 else j - 1;
    forall k: int | i <= k < j' ensures es'[k].height <= level {
      assert es'[k] == es[if k < p then k else k + 1];
    }
    assert j' < |es'| ==> es'[j'] == es[if j' < p then j' else j' + 1];
    hide Next, RemoveAt;
    NextIs(es', i, level, j');
  }

  lemma NextBeyondRemoved(es: seq<Entry>, p: nat, i: nat, level: nat)
    requires p < i <= |es|
    ensures Next(RemoveAt(es, p), i - 1, level) == Next(es, i, level) - 1
  {
    var es', j := RemoveAt(es, p), Next(es, i, level);
    forall k: int | i - 1 <= k < j - 1 ensures es'[k].height <= level {
      assert es'[k] == es[k + 1];
    }
    assert j < |es| ==> es'[j - 1] == es[j];
    hide Next, RemoveAt;
    NextIs(es', i - 1, level, j - 1);
  }

  /** Where a link of the list without the node at `p` leads. */
  lemma NextAfterRemove(es: seq<Entry>, p: nat, i: nat, level: nat)
    requires i <= |es| && p < |es|
    ensures var j := Next(es, i, level);
            i <= p ==> Next(RemoveAt(es, p), i, level) == if j < p then j else if j == p then Next(es, p + 1, level) - 1 else j - 1
    ensures p < i ==> Next(RemoveAt(es, p), i - 1, level) == Next(es, i, level) - 1
  {
    hide Next, RemoveAt;
    if i <= p {
      NextBeforeRemoved(es, p, i, level);
    } else {
      NextBeyondRemoved(es, p, i, level);
    }
  }

  lemma NextUnchanged(es: seq<Entry>, fs: seq<Entry>, p: nat, level: nat)
    requires |es| == |fs| && p <= |es| && forall i | 0 <= i < |es| :: es[i].height == fs[i].height
    ensures Next(es, p, level) == Next(fs, p, level)
  {
    NextIs(fs, p, level, Next(es, p, level));
  }

  // ---- The list of each level ----

  /** The positions met on `level` from position `p` on. */
  ghost function LevelFrom(es: seq<Entry>, p: nat, level: nat): (ps: seq<nat>)
    requires p <= |es|
    ensures forall i | 0 <= i < |ps| :: p <= ps[i] < |es|
    decreases |es| - p
  {
    var j := Next(es, p, level);
    if j == |es| then [] else [j] + LevelFrom(es, j + 1, level)
  }

  ghost predicate Increasing(ps: seq<nat>) {
    forall i: nat, j: nat | i < j < |ps| :: ps[i] < ps[j]
  }

  lemma {:induction false} LevelIncreases(es: seq<Entry>, p: nat, level: nat)
    requires p <= |es|
    ensures Increasing(LevelFrom(es, p, level))
    decreases |es| - p
  {
    var j := Next(es, p, level);
    if j < |es| {
      LevelIncreases(es, j + 1, level);
    }
  }

  lemma {:induction false} LevelMembers(es: seq<Entry>, p: nat, level: nat, x: nat)
    requires p <= x < |es|
    ensures x in LevelFrom(es, p, level) <==> level < es[x].height
    decreases |es| - p
  {
    var j := Next(es, p, level);
    if j < x {
      LevelMembers(es, j + 1, level, x);
    }
  }

  /** Level `level` is in key order and holds exactly the nodes that reach it. */
  lemma LevelIsSortedSublist(es: seq<Entry>, level: nat)
    requires Sorted(es) && 1 <= |es|
    ensures var ps := LevelFrom(es, 1, level);
            forall i: nat, j: nat | i < j < |ps| :: Less(es[ps[i]].key, es[ps[j]].key)
    ensures forall x: nat | 1 <= x < |es| :: x in LevelFrom(es, 1, level) <==> level < es[x].height
  {
    hide LevelFrom, Less;
    LevelIncreases(es, 1, level);
    forall x: nat | 1 <= x < |es| ensures x in LevelFrom(es, 1, level) <==> level < es[x].height {
      LevelMembers(es, 1, level, x);
    }
  }

  /** Each level is a sublist of the one below, and the levels no node reaches are empty. */
  lemma LevelsNest(es: seq<Entry>, level: nat)
    requires Sorted(es) && 1 <= |es|
    ensures forall x | x in LevelFrom(es, 1, level + 1) :: x in LevelFrom(es, 1, level)
    ensures (forall x: nat | 1 <= x < |es| :: es[x].height <= level) ==> LevelFrom(es, 1, level) == []
  {
    LevelIsSortedSublist(es, level);
    LevelIsSortedSublist(es, level + 1);
    if forall x: nat | 1 <= x < |es| :: es[x].height <= level {
      NextIs(es, 1, level, |es|);
    }
  }
}
