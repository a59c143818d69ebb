/**
 The sequential skip list: heap nodes linked level by level, refining a finite map whatever
 levels the coin gives to new nodes.
 */
module SkipListObject {
  import opened Options
  import opened SkipLevels

  class Node {
    const key: string
    var value: string
    var next: seq<Node?>

    constructor (key: string, value: string, level: nat)
      ensures this.key == key && this.value == value
      ensures next == seq(level, _ => null)
    {
      this.key := key;
      this.value := value;
      this.next := seq(level, _ => null);
    }
  }

  /** The node at position `j`; past the end, the null that ends every level. */
  ghost function At(nodes: seq<Node>, j: nat): Node? {
    if j < |nodes| then nodes[j] else null
  }

  lemma AtIs(nodes: seq<Node>, p: nat, j: nat)
    requires Distinct(nodes) && p < |nodes|
    ensures At(nodes, j) == nodes[p] <==> j == p
  {
  }

  lemma HeightsMatch(nodes: seq<Node>, es: seq<Entry>)
    requires Matches(nodes, es)
    ensures |nodes| == |es| && forall i: nat | i < |nodes| :: |nodes[i].next| == es[i].height
  {
  }

  /** On every level, every node links to the next one that reaches the level. */
  ghost predicate Linked(nodes: seq<Node>, es: seq<Entry>)
    reads nodes
    requires |nodes| == |es|
  {
    forall i: nat, l: nat | i < |nodes| && l < |nodes[i].next| :: nodes[i].next[l] == At(nodes, Next(es, i + 1, l))
  }

  ghost predicate Matches(nodes: seq<Node>, es: seq<Entry>)
    reads nodes
  {
    && |nodes| == |es|
    && forall i: nat | i < |nodes| :: es[i] == Entry(nodes[i].key, nodes[i].value, |nodes[i].next|)
  }

  ghost predicate Distinct(nodes: seq<Node>) {
    forall i: nat, j: nat | i < j < |nodes| :: nodes[i] != nodes[j]
  }

  ghost predicate HeightsOk(es: seq<Entry>, top: nat) {
    && 1 <= |es| && es[0].height == MAX_LEVEL
    && 1 <= top <= MAX_LEVEL
    && forall i: nat | 1 <= i < |es| :: 1 <= es[i].height <= top
  }

  /** The highest level is not empty, unless it is the only one. */
  ghost predicate TopReached(es: seq<Entry>, top: nat)
    requires HeightsOk(es, top)
  {
    top > 1 ==> Next(es, 1, top - 1) < |es|
  }

  /** `i` is the last position before `p` whose node reaches `level`. */
  ghost predicate IsPred(es: seq<Entry>, p: nat, level: nat, i: nat) {
    i < p <= |es| && level < es[i].height && p <= Next(es, i + 1, level)
  }

  lemma PredIsUnique(es: seq<Entry>, p: nat, level: nat, i: nat, j: nat)
    requires IsPred(es, p, level, i) && IsPred(es, p, level, j)
    ensures i == j
  {
    hide Next;
    if i < j {
      assert false;
    } else if j < i {
      assert false;
    }
  }

  lemma PredFacts(es: seq<Entry>, p: nat, level: nat, i: nat)
    requires IsPred(es, p, level, i)
    ensures i < p <= |es| && level < es[i].height
    ensures Next(es, p, level) == Next(es, i + 1, level)
  {
    NextFromPred(es, p, level, i + 1);
  }

  /** From the predecessor of `p`, a level goes on where it would go on from `p` itself. */
  lemma NextFromPred(es: seq<Entry>, p: nat, level: nat, i: nat)
    requires i <= p <= |es| && p <= Next(es, i, level)
    ensures Next(es, p, level) == Next(es, i, level)
  {
    NextIs(es, p, level, Next(es, i, level));
  }

  /** Level 0 skips nobody. */
  lemma FirstLevelIsComplete(es: seq<Entry>, top: nat, p: nat)
    requires HeightsOk(es, top) && p <= |es|
    ensures Next(es, p, 0) == p
  {
    NextIs(es, p, 0, p);
  }

  /** The levels from the highest one of the list up are empty. */
  lemma TopLevelsAreEmpty(es: seq<Entry>, top: nat, p: nat, level: nat)
    requires HeightsOk(es, top) && top <= level && 1 <= p <= |es|
    ensures Next(es, p, level) == |es|
  {
    NextIs(es, p, level, |es|);
  }

  lemma SameShape(nodes: seq<Node>, es: seq<Entry>, top: nat)
    requires Matches(nodes, es) && HeightsOk(es, top)
    ensures |nodes| == |es| && forall i: nat | i < |nodes| :: es[i].key == nodes[i].key
    ensures 1 <= top <= MAX_LEVEL
  {
  }

  lemma HeadIsPred(es: seq<Entry>, top: nat, p: nat, level: nat)
    requires HeightsOk(es, top) && top <= level < MAX_LEVEL && 1 <= p <= |es|
    ensures IsPred(es, p, level, 0)
  {
    TopLevelsAreEmpty(es, top, 1, level);
  }

  lemma HeightsAfterInsert(es: seq<Entry>, top: nat, e: Entry, p: nat)
    requires HeightsOk(es, top) && TopReached(es, top) && 1 <= p <= |es| && 1 <= e.height <= MAX_LEVEL
    ensures var top' := if e.height > top then e.height else top;
            HeightsOk(InsertAt(es, p, e), top') && TopReached(InsertAt(es, p, e), top')
  {
    var top' := if e.height > top then e.height else top;
    NextAfterInsert(es, p, e, 1, top' - 1);
  }

  // ---- Linking a node in and out ----

  ghost function NodesWith(nodes: seq<Node>, p: nat, n: Node): seq<Node>
    requires p <= |nodes|
  {
    nodes[..p] + [n] + nodes[p..]
  }

  ghost function NodesWithout(nodes: seq<Node>, p: nat): seq<Node>
    requires p < |nodes|
  {
    nodes[..p] + nodes[p + 1..]
  }

  /** Below `level`, the predecessors of `p` already link to `n`. */
  ghost predicate Linking(nodes: seq<Node>, es: seq<Entry>, p: nat, n: Node, level: nat)
    reads nodes
    requires |nodes| == |es|
  {
    forall i: nat, l: nat | i < |nodes| && l < |nodes[i].next| ::
      nodes[i].next[l] == if l < level && IsPred(es, p, l, i) then n else At(nodes, Next(es, i + 1, l))
  }

  ghost predicate Copied(nodes: seq<Node>, es: seq<Entry>, p: nat, n: Node, level: nat)
    reads n
    requires |nodes| == |es| && p <= |es|
  {
    level <= |n.next| && forall l: nat | l < level :: n.next[l] == At(nodes, Next(es, p, l))
  }

  /** The links of all nodes as a value. */
  ghost function Links(nodes: seq<Node>): (links: seq<seq<Node?>>)
    reads nodes
    ensures |links| == |nodes| && forall i: nat | i < |nodes| :: links[i] == nodes[i].next
  {
    seq(|nodes|, i requires 0 <= i < |nodes| reads nodes => nodes[i].next)
  }

  /** `Linking` on the links as a value. */
  ghost predicate LinkingLinks(nodes: seq<Node>, links: seq<seq<Node?>>, es: seq<Entry>, p: nat, n: Node, level: nat)
    requires |nodes| == |links| == |es|
  {
    forall i: nat, l: nat | i < |links| && l < |links[i]| ::
      links[i][l] == if l < level && IsPred(es, p, l, i) then n else At(nodes, Next(es, i + 1, l))
  }

  lemma LinkingIs(nodes: seq<Node>, es: seq<Entry>, p: nat, n: Node, level: nat)
    requires |nodes| == |es|
    ensures Linking(nodes, es, p, n, level) <==> LinkingLinks(nodes, Links(nodes), es, p, n, level)
  {
    hide Next, IsPred;
  }

  /** One predecessor redirected to the new node links one level more. */
  lemma LinkingStep(nodes: seq<Node>, links: seq<seq<Node?>>, es: seq<Entry>, p: nat, n: Node, level: nat, i: nat)
    requires |nodes| == |links| == |es| && LinkingLinks(nodes, links, es, p, n, level)
    requires forall k: nat | k < |links| :: |links[k]| == es[k].height
    requires IsPred(es, p, level, i)
    ensures i < |links| && level < |links[i]| && links[i][level] == At(nodes, Next(es, p, level))
    ensures LinkingLinks(nodes, links[i := links[i][level := n]], es, p, n, level + 1)
  {
    PredFacts(es, p, level, i);
    forall j: nat | IsPred(es, p, level, j) ensures j == i {
      PredIsUnique(es, p, level, i, j);
    }
    hide Next, IsPred, At;
  }

  lemma LinkingStarts(nodes: seq<Node>, es: seq<Entry>, p: nat, n: Node)
    requires |nodes| == |es| && p <= |es| && Linked(nodes, es)
    ensures Linking(nodes, es, p, n, 0) && Copied(nodes, es, p, n, 0)
  {
  }

  lemma LinkAfterInsert(nodes: seq<Node>, es: seq<Entry>, p: nat, n: Node, i: nat, l: nat)
    requires Matches(nodes, es) && 1 <= p <= |nodes|
    requires Linking(nodes, es, p, n, |n.next|) && Copied(nodes, es, p, n, |n.next|)
    requires i <= |nodes| && l < |NodesWith(nodes, p, n)[i].next|
    ensures var e := Entry(n.key, n.value, |n.next|);
            NodesWith(nodes, p, n)[i].next[l] == At(NodesWith(nodes, p, n), Next(InsertAt(es, p, e), i + 1, l))
  {
    hide Next, InsertAt;
    var e := Entry(n.key, n.value, |n.next|);
    var nodes' := NodesWith(nodes, p, n);
    if i < p {
      assert nodes'[i] == nodes[i];
      NextAfterInsert(es, p, e, i + 1, l);
    } else if i == p {
      NextAfterInsert(es, p, e, p, l);
    } else {
      assert nodes'[i] == nodes[i - 1];
      NextAfterInsert(es, p, e, i, l);
    }
  }

  lemma LinkedAfterInsert(nodes: seq<Node>, es: seq<Entry>, p: nat, n: Node)
    requires Matches(nodes, es) && Distinct(nodes) && n !in nodes && 1 <= p <= |nodes|
    requires Linking(nodes, es, p, n, |n.next|) && Copied(nodes, es, p, n, |n.next|)
    ensures Matches(NodesWith(nodes, p, n), InsertAt(es, p, Entry(n.key, n.value, |n.next|)))
    ensures Distinct(NodesWith(nodes, p, n))
    ensures Linked(NodesWith(nodes, p, n), InsertAt(es, p, Entry(n.key, n.value, |n.next|)))
  {
    hide Next, Linking, Copied;
    var nodes' := NodesWith(nodes, p, n);
    forall i: nat, l: nat | i < |nodes'| && l < |nodes'[i].next|
      ensures nodes'[i].next[l] == At(nodes', Next(InsertAt(es, p, Entry(n.key, n.value, |n.next|)), i + 1, l))
    {
      LinkAfterInsert(nodes, es, p, n, i, l);
    }
  }

  /** Below `level`, the predecessors of the node at `p` already skip it. */
  ghost predicate Unlinking(nodes: seq<Node>, es: seq<Entry>, p: nat, level: nat)
    reads nodes
    requires |nodes| == |es| && p < |es|
  {
    forall i: nat, l: nat | i < |nodes| && l < |nodes[i].next| ::
      nodes[i].next[l] == At(nodes, if l < level && Next(es, i + 1, l) == p then Next(es, p + 1, l) else Next(es, i + 1, l))
  }

  /** `Unlinking` on the links as a value. */
  ghost predicate UnlinkingLinks(nodes: seq<Node>, links: seq<seq<Node?>>, es: seq<Entry>, p: nat, level: nat)
    requires |nodes| == |links| == |es| && p < |es|
  {
    forall i: nat, l: nat | i < |links| && l < |links[i]| ::
      links[i][l] == At(nodes, if l < level && Next(es, i + 1, l) == p then Next(es, p + 1, l) else Next(es, i + 1, l))
  }

  lemma UnlinkingIs(nodes: seq<Node>, es: seq<Entry>, p: nat, level: nat)
    requires |nodes| == |es| && p < |es|
    ensures Unlinking(nodes, es, p, level) <==> UnlinkingLinks(nodes, Links(nodes), es, p, level)
  {
    hide Next;
  }

  /** One link redirected past the node at `p` unlinks one level more. */
  lemma UnlinkingStep(nodes: seq<Node>, links: seq<seq<Node?>>, es: seq<Entry>, p: nat, level: nat, i: nat)
    requires |nodes| == |links| == |es| && 1 <= p < |es| && UnlinkingLinks(nodes, links, es, p, level)
    requires forall k: nat | k < |links| :: |links[k]| == es[k].height
    requires IsPred(es, p, level, i) && level < es[p].height
    ensures i < |links| && level < |links[i]| && level < |links[p]|
    ensures UnlinkingLinks(nodes, links[i := links[i][level := links[p][level]]], es, p, level + 1)
  {
    PredMeets(es, p, level, i);
    hide Next, IsPred, At;
  }

  lemma UnlinkingStarts(nodes: seq<Node>, es: seq<Entry>, p: nat)
    requires |nodes| == |es| && p < |es| && Linked(nodes, es)
    ensures Unlinking(nodes, es, p, 0)
  {
  }

  /** The levels the node does not reach are unlinked from the start. */
  lemma LinkAfterRemove(nodes: seq<Node>, es: seq<Entry>, p: nat, level: nat, i: nat, l: nat)
    requires Matches(nodes, es) && p < |nodes| && Unlinking(nodes, es, p, level) && es[p].height <= level
    requires i < |nodes| - 1 && l < |NodesWithout(nodes, p)[i].next|
    ensures NodesWithout(nodes, p)[i].next[l] == At(NodesWithout(nodes, p), Next(RemoveAt(es, p), i + 1, l))
  {
    hide Next, RemoveAt;
    var nodes' := NodesWithout(nodes, p);
    if i < p {
      assert nodes'[i] == nodes[i];
      NextAfterRemove(es, p, i + 1, l);
    } else {
      assert nodes'[i] == nodes[i + 1];
      NextAfterRemove(es, p, i + 2, l);
    }
  }

  lemma LinkedAfterRemove(nodes: seq<Node>, es: seq<Entry>, p: nat, level: nat)
    requires Matches(nodes, es) && Distinct(nodes) && 1 <= p < |nodes|
    requires Unlinking(nodes, es, p, level) && es[p].height <= level
    ensures Matches(NodesWithout(nodes, p), RemoveAt(es, p))
    ensures Distinct(NodesWithout(nodes, p))
    ensures Linked(NodesWithout(nodes, p), RemoveAt(es, p))
  {
    hide Next, Unlinking;
    var nodes' := NodesWithout(nodes, p);
    forall i: nat, l: nat | i < |nodes'| && l < |nodes'[i].next|
      ensures nodes'[i].next[l] == At(nodes', Next(RemoveAt(es, p), i + 1, l))
    {
      LinkAfterRemove(nodes, es, p, level, i, l);
    }
  }

  /** A predecessor links to the node at `p` exactly on the levels that node reaches, and it alone does. */
  lemma PredMeets(es: seq<Entry>, p: nat, level: nat, i: nat)
    requires IsPred(es, p, level, i) && p < |es|
    ensures i < |es| && level < es[i].height
    ensures Next(es, i + 1, level) == p <==> level < es[p].height
    ensures p < Next(es, p + 1, level)
    ensures forall k: nat | k < |es| && Next(es, k + 1, level) == p && level < es[k].height :: k == i
  {
    NextFromPred(es, p, level, i + 1);
    if level < es[p].height {
      NextIs(es, p, level, p);
    }
    forall k: nat | k < |es| && Next(es, k + 1, level) == p && level < es[k].height ensures k == i {
      PredIsUnique(es, p, level, i, k);
    }
  }

  /** An empty highest level may go. */
  lemma EmptyTopLevel(nodes: seq<Node>, es: seq<Entry>, top: nat)
    requires Matches(nodes, es) && Linked(nodes, es) && HeightsOk(es, top)
    ensures top > 1 && nodes[0].next[top - 1] == null <==> !TopReached(es, top)
    ensures !TopReached(es, top) ==> HeightsOk(es, top - 1)
  {
  }

  class SkipList {
    const head: Node
    var curMaxLevel: nat
    ghost var nodes: seq<Node>
    ghost var entries: seq<Entry>

    ghost predicate Valid()
      reads this, nodes
    {
      && 1 <= |nodes| && nodes[0] == head
      && Distinct(nodes) && Matches(nodes, entries)
      && HeightsOk(entries, curMaxLevel)
      && Sorted(entries)
      && Linked(nodes, entries)
      && TopReached(entries, curMaxLevel)
    }

    /** On each level below `top`, `update` holds the predecessor of position `p`. */
    ghost predicate Located(p: nat, preds: seq<nat>, update: seq<Node?>, top: nat)
      reads this`nodes, this`entries
    {
      && top <= |update| == |preds|
      && forall l: nat | l < top :: IsPred(entries, p, l, preds[l]) && preds[l] < |nodes| && update[l] == nodes[preds[l]]
    }

    ghost function Map(): map<string, string>
      reads this, nodes
      requires Valid()
    {
      Contents(entries)
    }

    constructor ()
      ensures Valid() && Map() == map[]
      ensures fresh(nodes)
    {
      var h := new Node("", "", MAX_LEVEL);
      head := h;
      curMaxLevel := 1;
      nodes := [h];
      entries := [Entry("", "", MAX_LEVEL)];
      new;
      assert Contents(entries) == map[];
    }

    /** The search all operations share: on each level the last node before the place of `key`. */
    method FindPredecessors(key: string) returns (update: seq<Node?>, node: Node, ghost p: nat, ghost preds: seq<nat>)
      requires Valid()
      ensures IsRank(entries, key, p) && 1 <= p <= |nodes|
      ensures node == nodes[p - 1] && 0 < |node.next| && node.next[0] == At(nodes, p)
      ensures |update| == |preds| == MAX_LEVEL
      ensures Located(p, preds, update, curMaxLevel)
    {
      hide Next, Contents, Sorted, Distinct;
      update := seq(MAX_LEVEL, _ => null);
      preds := seq(MAX_LEVEL, _ => 0);
      p := Rank(entries, key, 1);
      node := head;
      ghost var i: nat := 0;
      var level: nat := curMaxLevel;
      while level > 0
        invariant level <= curMaxLevel && |update| == |preds| == MAX_LEVEL
        invariant i < p && node == nodes[i] && level <= entries[i].height
        invariant forall l: nat | level <= l < curMaxLevel :: IsPred(entries, p, l, preds[l]) && update[l] == nodes[preds[l]]
        invariant level == 0 ==> i == p - 1
      {
        level := level - 1;
        while node.next[level] != null && Less(node.next[level].key, key)
          invariant i < p && node == nodes[i] && level < entries[i].height
          decreases |nodes| - i
        {
          i := Next(entries, i + 1, level);
          node := node.next[level];
        }
        assert p <= Next(entries, i + 1, level);
        FirstLevelIsComplete(entries, curMaxLevel, i + 1);
        update := update[level := node];
        preds := preds[level := i];
      }
    }

    method Get(key: string) returns (r: Option<string>)
      requires Valid()
      ensures r == if key in Map() then Some(Map()[key]) else None
    {
      hide Next, Contents, Sorted, Distinct;
      var update, node, p, preds := FindPredecessors(key);
      LookupAtRank(entries, key, p);
      var found := node.next[0];
      if found != null && found.key == key {
        r := Some(found.value);
      } else {
        r := None;
      }
    }

    /** Any level the coin may give. */
    method RandomLevel() returns (level: nat)
      ensures 1 <= level <= MAX_LEVEL
    {
      level :| 1 <= level <= MAX_LEVEL;
    }

    /** Redirects one link; the shape of the list stays. */
    method SetNext(pred: Node, ghost i: nat, level: nat, target: Node?)
      requires Matches(nodes, entries) && Distinct(nodes) && i < |nodes| && pred == nodes[i] && level < |pred.next|
      modifies pred`next
      ensures Matches(nodes, entries)
      ensures Links(nodes) == old(Links(nodes))[i := old(pred.next)[level := target]]
    {
      pred.next := pred.next[level := target];
    }

    /** The new node takes over one link. */
    method CopyNext(newNode: Node, level: nat, target: Node?, ghost p: nat)
      requires |nodes| == |entries| && p <= |entries| && newNode !in nodes && level < |newNode.next|
      requires Copied(nodes, entries, p, newNode, level) && target == At(nodes, Next(entries, p, level))
      modifies newNode`next
      ensures newNode.value == old(newNode.value) && |newNode.next| == old(|newNode.next|)
      ensures Copied(nodes, entries, p, newNode, level + 1)
    {
      hide Next, At;
      newNode.next := newNode.next[level := target];
    }

    /** One level of the linking loop of `Insert`. */
    method LinkLevel(newNode: Node, pred: Node, ghost p: nat, ghost i: nat, level: nat)
      requires 1 <= |nodes| && Distinct(nodes) && Matches(nodes, entries)
      requires newNode !in nodes && level < |newNode.next|
      requires IsPred(entries, p, level, i) && pred == nodes[i]
      requires Linking(nodes, entries, p, newNode, level) && Copied(nodes, entries, p, newNode, level)
      modifies pred, newNode
      ensures Matches(nodes, entries)
      ensures newNode.value == old(newNode.value) && |newNode.next| == old(|newNode.next|)
      ensures Linking(nodes, entries, p, newNode, level + 1) && Copied(nodes, entries, p, newNode, level + 1)
    {
      HeightsMatch(nodes, entries);
      hide Next, IsPred, Distinct, Matches, At;
      LinkingIs(nodes, entries, p, newNode, level);
      LinkingStep(nodes, Links(nodes), entries, p, newNode, level, i);
      hide Linking, LinkingLinks;
      hide Copied;
      CopyNext(newNode, level, pred.next[level], p);
      SetNext(pred, i, level, newNode);
      LinkingIs(nodes, entries, p, newNode, level + 1);
    }

    /** The loop of `Insert` that hangs the new node in, level by level. */
    method LinkNode(newNode: Node, update: seq<Node?>, ghost p: nat, ghost preds: seq<nat>, ghost top: nat)
      requires 1 <= |nodes| && Distinct(nodes) && Matches(nodes, entries) && Linked(nodes, entries)
      requires newNode !in nodes && 1 <= p <= |nodes|
      requires |update| == |preds| == MAX_LEVEL && |newNode.next| <= top && Located(p, preds, update, top)
      modifies this`nodes, this`entries, nodes, newNode
      ensures nodes == NodesWith(old(nodes), p, newNode)
      ensures newNode.value == old(newNode.value) && |newNode.next| == old(|newNode.next|)
      ensures entries == InsertAt(old(entries), p, Entry(newNode.key, newNode.value, |newNode.next|))
      ensures Distinct(nodes) && Matches(nodes, entries) && Linked(nodes, entries)
    {
      hide Next, IsPred, Linked, Distinct;
      var level := 0;
      LinkingStarts(nodes, entries, p, newNode);
      while level < |newNode.next|
        invariant level <= |newNode.next|
        invariant newNode.value == old(newNode.value) && |newNode.next| == old(|newNode.next|)
        invariant Matches(nodes, entries)
        invariant Linking(nodes, entries, p, newNode, level) && Copied(nodes, entries, p, newNode, level)
        modifies nodes, newNode
      {
        hide Matches, Linking, Copied;
        LinkLevel(newNode, update[level], p, preds[level], level);
        level := level + 1;
      }
      LinkedAfterInsert(nodes, entries, p, newNode);
      nodes := NodesWith(nodes, p, newNode);
      entries := InsertAt(entries, p, Entry(newNode.key, newNode.value, |newNode.next|));
    }

    method SetValue(node: Node, value: string, ghost p: nat)
      requires Valid() && 1 <= p < |nodes| && node == nodes[p]
      modifies this`entries, node
      ensures Valid() && nodes == old(nodes)
      ensures Map() == old(Map())[node.key := value]
    {
      hide Next, Contents, Sorted, Less;
      UpdateAtRank(entries, node.key, value, p);
      node.value := value;
      entries := entries[p := entries[p].(value := value)];
      forall i: nat, l: nat | i <= |nodes| ensures Next(entries, i, l) == Next(old(entries), i, l) {
        NextUnchanged(old(entries), entries, i, l);
      }
    }

    /** The levels above the highest one start at the head. */
    method AddLevels(preds: seq<Node?>, newLevel: nat, ghost p: nat, ghost positions: seq<nat>)
      returns (update: seq<Node?>, ghost at: seq<nat>)
      requires |nodes| == |entries| && HeightsOk(entries, curMaxLevel) && newLevel <= MAX_LEVEL
      requires 1 <= p <= |nodes| && nodes[0] == head
      requires |preds| == |positions| == MAX_LEVEL && Located(p, positions, preds, curMaxLevel)
      ensures |update| == |at| == MAX_LEVEL && Located(p, at, update, if newLevel > curMaxLevel then newLevel else curMaxLevel)
    {
      hide Next, IsPred;
      update, at := preds, positions;
      var level: nat := curMaxLevel;
      while level < newLevel
        invariant curMaxLevel <= level && (level <= newLevel || level == curMaxLevel)
        invariant |update| == |at| == MAX_LEVEL && Located(p, at, update, level)
      {
        HeadIsPred(entries, curMaxLevel, p, level);
        update := update[level := head];
        at := at[level := 0];
        level := level + 1;
      }
    }

    method InsertNode(key: string, value: string, preds: seq<Node?>, ghost p: nat, ghost positions: seq<nat>)
      requires Valid()
      requires IsRank(entries, key, p) && (p < |nodes| ==> nodes[p].key != key)
      requires |preds| == |positions| == MAX_LEVEL && Located(p, positions, preds, curMaxLevel)
      modifies this, nodes
      ensures Valid() && fresh(set n | n in nodes && n !in old(nodes))
      ensures Map() == old(Map())[key := value]
    {
      hide Next, Contents, Sorted, Distinct, Linked, Located, IsRank, HeightsOk, TopReached, Matches, InsertAt;
      RankIsPositive(entries, key, p);
      SameShape(nodes, entries, curMaxLevel);
      var newLevel := RandomLevel();
      var update, at := AddLevels(preds, newLevel, p, positions);
      ghost var e := Entry(key, value, newLevel);
      InsertAtRank(entries, e, p);
      HeightsAfterInsert(entries, curMaxLevel, e, p);
      if newLevel > curMaxLevel {
        curMaxLevel := newLevel;
      }
      var newNode := new Node(key, value, newLevel);
      LinkNode(newNode, update, p, at, curMaxLevel);
    }

    method Insert(key: string, value: string)
      requires Valid()
      modifies this, nodes
      ensures Valid() && fresh(set n | n in nodes && n !in old(nodes))
      ensures Map() == old(Map())[key := value]
    {
      hide Next, Contents, Sorted, Distinct;
      var update, node, p, preds := FindPredecessors(key);
      var found := node.next[0];
      if found != null && found.key == key {
        SetValue(found, value, p);
      } else {
        InsertNode(key, value, update, p, preds);
      }
    }

    /** One level of the unlinking loop: false if the node does not reach the level. */
    method UnlinkLevel(node: Node, pred: Node, ghost p: nat, ghost i: nat, level: nat) returns (linked: bool)
      requires 1 <= p < |nodes| && Distinct(nodes) && Matches(nodes, entries)
      requires node == nodes[p] && IsPred(entries, p, level, i) && pred == nodes[i]
      requires Unlinking(nodes, entries, p, level)
      modifies pred
      ensures linked <==> level < entries[p].height
      ensures Matches(nodes, entries)
      ensures Unlinking(nodes, entries, p, if linked then level + 1 else level)
    {
      PredMeets(entries, p, level, i);
      AtIs(nodes, p, Next(entries, i + 1, level));
      HeightsMatch(nodes, entries);
      hide Next, IsPred, Distinct, Matches, At;
      if pred.next[level] != node {
        return false;
      }
      UnlinkingIs(nodes, entries, p, level);
      UnlinkingStep(nodes, Links(nodes), entries, p, level, i);
      hide Unlinking, UnlinkingLinks;
      SetNext(pred, i, level, node.next[level]);
      UnlinkingIs(nodes, entries, p, level + 1);
      return true;
    }

    /** The loop of `Erase` that takes the node out, level by level, up to the first it does not reach. */
    method UnlinkNode(node: Node, update: seq<Node?>, ghost p: nat, ghost preds: seq<nat>)
      requires Valid() && 1 <= p < |nodes| && node == nodes[p]
      requires |update| == |preds| == MAX_LEVEL && Located(p, preds, update, curMaxLevel)
      modifies this`nodes, this`entries, nodes
      ensures nodes == NodesWithout(old(nodes), p) && entries == RemoveAt(old(entries), p)
      ensures Distinct(nodes) && Matches(nodes, entries) && Linked(nodes, entries)
    {
      hide Next, IsPred, Linked, Distinct, Sorted;
      var level: nat := 0;
      UnlinkingStarts(nodes, entries, p);
      while level < curMaxLevel
        invariant level <= curMaxLevel
        invariant Matches(nodes, entries) && Unlinking(nodes, entries, p, level)
        modifies nodes
      {
        hide Matches, Unlinking;
        var linked := UnlinkLevel(node, update[level], p, preds[level], level);
        if !linked {
          break;
        }
        level := level + 1;
      }
      LinkedAfterRemove(nodes, entries, p, level);
      nodes := NodesWithout(nodes, p);
      entries := RemoveAt(entries, p);
    }

    /** The loop of `Erase` that gives up empty top levels. */
    method LowerLevels()
      requires Matches(nodes, entries) && Linked(nodes, entries) && HeightsOk(entries, curMaxLevel) && nodes[0] == head
      modifies this`curMaxLevel
      ensures HeightsOk(entries, curMaxLevel) && TopReached(entries, curMaxLevel)
    {
      hide Next, Linked, TopReached;
      while curMaxLevel > 1 && head.next[curMaxLevel - 1] == null
        invariant HeightsOk(entries, curMaxLevel)
      {
        EmptyTopLevel(nodes, entries, curMaxLevel);
        curMaxLevel := curMaxLevel - 1;
      }
      EmptyTopLevel(nodes, entries, curMaxLevel);
    }

    method Erase(key: string) returns (erased: bool)
      requires Valid()
      modifies this, nodes
      ensures Valid() && forall n | n in nodes :: n in old(nodes)
      ensures erased <==> key in old(Map())
      ensures Map() == old(Map()) - {key}
    {
      hide Next, Contents, Sorted, Distinct, Linked, Located, IsRank, TopReached, Less;
      SameShape(nodes, entries, curMaxLevel);
      var update, node, p, preds := FindPredecessors(key);
      LookupAtRank(entries, key, p);
      var found := node.next[0];
      if found == null || found.key != key {
        return false;
      }
      RemoveAtRank(entries, key, p);
      UnlinkNode(found, update, p, preds);
      LowerLevels();
      return true;
    }

    /** Every link goes up in key order to a node that reaches the level; links skip no such node. */
    lemma LinksAscend(i: nat, level: nat)
      requires Valid() && i < |nodes| && level < |nodes[i].next|
      ensures nodes[i].next[level] == null ==> forall k: nat | i < k < |nodes| :: |nodes[k].next| <= level
      ensures nodes[i].next[level] != null ==>
        exists j: nat | i < j < |nodes| ::
          && nodes[j] == nodes[i].next[level] && level < |nodes[j].next| && (i > 0 ==> Less(nodes[i].key, nodes[j].key))
          && forall k: nat | i < k < j :: |nodes[k].next| <= level
    {
      hide Less;
      var j := Next(entries, i + 1, level);
      if j < |nodes| {
        assert nodes[j] == nodes[i].next[level];
      }
    }

    /** The levels from `curMaxLevel` on are empty, and it is the least such number above 0. */
    lemma TopLevelIsExact(level: nat)
      requires Valid() && level < MAX_LEVEL
      ensures curMaxLevel <= level ==> head.next[level] == null
      ensures level + 1 == curMaxLevel && level > 0 ==> head.next[level] != null
    {
      if curMaxLevel <= level {
        TopLevelsAreEmpty(entries, curMaxLevel, 1, level);
      }
    }
  }
}
