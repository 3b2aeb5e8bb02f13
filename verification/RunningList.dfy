/** The doubly linked list of running transactions that yields the watermark:
    the smallest begin time still running on this worker. */
module RunningList {

  class ListNode {
    const bt: nat
    var left: ListNode?
    var right: ListNode?

    constructor (bt: nat)
      ensures this.bt == bt && left == null && right == null
    {
      this.bt := bt;
      left, right := null, null;
    }
  }

  // ---------- pointers ----------

  ghost predicate Distinct(nodes: seq<ListNode>) {
    forall i, j | 0 <= i < j < |nodes| :: nodes[i] != nodes[j]
  }

  /** The nodes are linked in order; `head` and `tail` are the ends. */
  ghost predicate Chained(nodes: seq<ListNode>, repr: set<ListNode>, head: ListNode?, tail: ListNode?)
    reads repr
  {
    && Distinct(nodes) && (forall i | 0 <= i < |nodes| :: nodes[i] in repr)
    && (if nodes == [] then head == tail == null
        else
          && head == nodes[0] && tail == nodes[|nodes| - 1]
          && nodes[0].left == null && nodes[|nodes| - 1].right == null)
    && (forall i, j | 0 <= i < j < |nodes| && j == i + 1 :: nodes[i].right == nodes[j] && nodes[j].left == nodes[i])
  }

  lemma {:induction false} Neighbours(nodes: seq<ListNode>, repr: set<ListNode>, head: ListNode?, tail: ListNode?, i: nat)
    requires Chained(nodes, repr, head, tail) && i < |nodes|
    ensures nodes[i].left == if i == 0 then null else nodes[i - 1]
    ensures nodes[i].right == if i == |nodes| - 1 then null else nodes[i + 1]
  {
  }

  /** The two end pointers and the nodes between them. */
  class NodeList {
    var head: ListNode?
    var tail: ListNode?
    ghost var nodes: seq<ListNode>
    ghost var repr: set<ListNode>

    ghost predicate Valid()
      reads this, repr
    {
      Chained(nodes, repr, head, tail)
    }

    constructor ()
      ensures Valid() && nodes == [] && repr == {}
    {
      head, tail, nodes, repr := null, null, [], {};
    }

    /** Hang a new node behind the tail. */
    method Append(bt: nat) returns (node: ListNode)
      requires Valid()
      modifies this, repr
      ensures Valid() && nodes == old(nodes) + [node] && node.bt == bt
      ensures fresh(node) && repr == old(repr) + {node}
    {
      node := new ListNode(bt);
      if head == null {
        head, tail := node, node;
      } else {
        tail.right := node;
        node.left := tail;
        tail := node;
      }
      nodes, repr := nodes + [node], repr + {node};
    }

    /** Is the node the first one, and which begin time follows it? */
    method Successor(node: ListNode, ghost i: nat, none: nat) returns (first: bool, bt: nat)
      requires Valid() && i < |nodes| && nodes[i] == node
      ensures first <==> i == 0
      ensures bt == if i + 1 < |nodes| then nodes[i + 1].bt else none
    {
      Neighbours(nodes, repr, head, tail, i);
      first := node.left == null;
      bt := if node.right == null then none else node.right.bt;
    }

    /** Take a node out; the cases are the only one, the first, the last and an inner one. */
    method Remove(node: ListNode, ghost i: nat)
      requires Valid() && i < |nodes| && nodes[i] == node
      modifies this, repr
      ensures Valid() && nodes == Without(old(nodes), i) && repr == old(repr)
    {
      Neighbours(nodes, repr, head, tail, i);
      if node.left == null && node.right == null {
        head, tail := null, null;
      } else if node.left == null {
        head := node.right;
        node.right.left := null;
      } else if node.right == null {
        tail := tail.left;
        node.left.right := null;
      } else {
        node.left.right := node.right;
        node.right.left := node.left;
      }
      nodes := Without(nodes, i);
    }
  }

  // ---------- begin times ----------

  ghost predicate Ascending(s: seq<nat>) {
    forall i, j | 0 <= i < j < |s| :: s[i] < s[j]
  }

  /** The watermark that belongs to a list of begin times: the first of them,
      or when nothing is running one past all there were, and zero at the start. */
  ghost predicate Watermark(bts: seq<nat>, minBt: nat, maxBt: nat) {
    && (forall i | 0 <= i < |bts| :: minBt <= bts[i] <= maxBt)
    && (if bts != [] then minBt == bts[0] else minBt == maxBt + 1 || minBt == maxBt == 0)
  }

  /** The nodes carry these begin times, and the map finds each node by its time. */
  ghost predicate Indexed(nodes: seq<ListNode>, bts: seq<nat>, nodeMap: map<nat, ListNode>) {
    && |nodes| == |bts|
    && (forall i | 0 <= i < |bts| :: nodes[i].bt == bts[i] && bts[i] in nodeMap && nodeMap[bts[i]] == nodes[i])
    && nodeMap.Keys == Elements(bts)
  }

  ghost function Elements(s: seq<nat>): set<nat> {
    if s == [] then {} else Elements(s[..|s| - 1]) + {s[|s| - 1]}
  }

  lemma {:induction false} InElements(s: seq<nat>, x: nat)
    ensures x in Elements(s) <==> x in s
  {
    if s != [] {
      InElements(s[..|s| - 1], x);
      assert s == s[..|s| - 1] + [s[|s| - 1]];
    }
  }

  function Without<T>(s: seq<T>, i: nat): (r: seq<T>)
    requires i < |s|
    ensures |r| == |s| - 1
    ensures forall j {:trigger r[j]} | 0 <= j < |r| :: r[j] == if j < i then s[j] else s[j + 1]
  {
    seq(|s| - 1, j requires 0 <= j < |s| - 1 => if j < i then s[j] else s[j + 1])
  }

  lemma {:induction false} AscendingWithout(s: seq<nat>, i: nat)
    requires Ascending(s) && i < |s|
    ensures Ascending(Without(s, i)) && s[i] !in Without(s, i)
  {
  }

  lemma {:induction false} StillIn(s: seq<nat>, i: nat, x: nat)
    requires i < |s| && x in s && x != s[i]
    ensures x in Without(s, i)
  {
    var j :| 0 <= j < |s| && s[j] == x;
    assert Without(s, i)[if j < i then j else j - 1] == x;
  }

  lemma {:induction false} IndexedWithout(nodes: seq<ListNode>, bts: seq<nat>, nodeMap: map<nat, ListNode>, i: nat)
    requires Indexed(nodes, bts, nodeMap) && Ascending(bts) && i < |bts|
    ensures Indexed(Without(nodes, i), Without(bts, i), nodeMap - {bts[i]})
  {
    AscendingWithout(bts, i);
    var rest, nodes', map' := Without(bts, i), Without(nodes, i), nodeMap - {bts[i]};
    forall bt ensures bt in map' <==> bt in Elements(rest) {
      InElements(bts, bt);
      InElements(rest, bt);
      if bt in bts && bt != bts[i] {
        StillIn(bts, i, bt);
      }
    }
    forall j | 0 <= j < |rest| ensures nodes'[j].bt == rest[j] && rest[j] in map' && map'[rest[j]] == nodes'[j] {
      var k := if j < i then j else j + 1;
      assert rest[j] == bts[k] && nodes'[j] == nodes[k];
    }
  }

  lemma {:induction false} IndexOf(nodes: seq<ListNode>, bts: seq<nat>, nodeMap: map<nat, ListNode>, bt: nat) returns (i: nat)
    requires Indexed(nodes, bts, nodeMap) && bt in nodeMap
    ensures i < |bts| && bts[i] == bt && nodes[i] == nodeMap[bt]
    ensures i + 1 < |bts| ==> nodes[i + 1].bt == bts[i + 1]
  {
    InElements(bts, bt);
    i :| 0 <= i < |bts| && bts[i] == bt;
  }

  /** All there is to the list beside the links. */
  ghost predicate Times(nodes: seq<ListNode>, bts: seq<nat>, nodeMap: map<nat, ListNode>, minBt: nat, maxBt: nat) {
    Indexed(nodes, bts, nodeMap) && Ascending(bts) && Watermark(bts, minBt, maxBt)
  }

  lemma {:induction false} TimesAppend(nodes: seq<ListNode>, bts: seq<nat>, nodeMap: map<nat, ListNode>, minBt: nat, maxBt: nat, node: ListNode)
    requires Times(nodes, bts, nodeMap, minBt, maxBt) && node.bt > maxBt
    ensures Times(nodes + [node], bts + [node.bt], nodeMap[node.bt := node], if nodes == [] then node.bt else minBt, node.bt)
  {
  }

  /** The watermark that a list has after a removal: its first begin time, or
      one past every begin time so far when nothing is running. */
  ghost function Lowest(bts: seq<nat>, maxBt: nat): nat {
    if bts == [] then maxBt + 1 else bts[0]
  }

  /** The watermark rises to the first of what is left and not beyond. */
  lemma {:induction false} WatermarkWithout(bts: seq<nat>, minBt: nat, maxBt: nat, i: nat)
    requires Ascending(bts) && Watermark(bts, minBt, maxBt) && i < |bts|
    ensures NextMin(bts, minBt, maxBt, i) == Lowest(Without(bts, i), maxBt)
    ensures Watermark(Without(bts, i), NextMin(bts, minBt, maxBt, i), maxBt)
    ensures minBt <= NextMin(bts, minBt, maxBt, i) && (minBt == NextMin(bts, minBt, maxBt, i) <==> i != 0)
  {
  }

  lemma {:induction false} TimesWithout(nodes: seq<ListNode>, bts: seq<nat>, nodeMap: map<nat, ListNode>, minBt: nat, maxBt: nat, i: nat)
    requires Times(nodes, bts, nodeMap, minBt, maxBt) && i < |bts|
    ensures minBt <= NextMin(bts, minBt, maxBt, i) == Lowest(Without(bts, i), maxBt)
    ensures Times(Without(nodes, i), Without(bts, i), nodeMap - {bts[i]}, NextMin(bts, minBt, maxBt, i), maxBt)
  {
    IndexedWithout(nodes, bts, nodeMap, i);
    AscendingWithout(bts, i);
    WatermarkWithout(bts, minBt, maxBt, i);
  }

  /** The watermark after the i-th begin time has gone. */
  function NextMin(bts: seq<nat>, minBt: nat, maxBt: nat, i: nat): nat {
    if i != 0 then minBt else if |bts| <= 1 then maxBt + 1 else bts[1]
  }

  class RunningTrxList {
    const list: NodeList
    var nodeMap: map<nat, ListNode>
    var minBt: nat
    var maxBt: nat
    ghost var bts: seq<nat>

    ghost predicate Valid()
      reads this, list, list.repr
    {
      list.Valid() && Times(list.nodes, bts, nodeMap, minBt, maxBt)
    }

    constructor ()
      ensures Valid() && bts == [] && minBt == 0 && maxBt == 0 && fresh(list) && list.repr == {}
    {
      list := new NodeList();
      nodeMap, minBt, maxBt, bts := map[], 0, 0, [];
    }

    /** UpdateMinBT: the watermark may only rise; `ok` is the check in it. */
    method UpdateMinBt(bt: nat) returns (ok: bool)
      modifies `minBt
      ensures ok == (old(minBt) <= bt)
      ensures minBt == if ok then bt else old(minBt)
    {
      if minBt == bt {
        return true;
      }
      if minBt > bt {
        return false;
      }
      minBt := bt;
      ok := true;
    }

    /** InsertTrx, for a begin time later than all before it: the check in
        UpdateMinBT passes and the watermark does not fall. */
    method InsertTrx(bt: nat) returns (ok: bool)
      requires Valid() && bt > maxBt
      modifies this, list, list.repr
      ensures Valid() && ok && bts == old(bts) + [bt] && maxBt == bt && minBt >= old(minBt) && minBt == bts[0]
      ensures fresh(list.repr - old(list.repr))
    {
      ghost var before := list.nodes;
      ok := true;
      if list.head == null {
        ok := UpdateMinBt(bt);
      }
      var node := list.Append(bt);
      TimesAppend(before, bts, old(nodeMap), old(minBt), maxBt, node);
      nodeMap, maxBt, bts := nodeMap[bt := node], bt, bts + [bt];
    }

    /** Move the watermark if the first node goes, and unlink the node. */
    method EraseNode(node: ListNode, ghost i: nat) returns (ok: bool)
      requires Valid() && i < |bts| && list.nodes[i] == node
      modifies this, list, list.repr
      ensures Valid() && maxBt == old(maxBt) && minBt >= old(minBt) && list.repr == old(list.repr)
      ensures ok && bts == Without(old(bts), i) && minBt == NextMin(old(bts), old(minBt), maxBt, i) == Lowest(bts, maxBt)
    {
      var first, bt := list.Successor(node, i, maxBt + 1);
      ok := true;
      if first {
        ok := UpdateMinBt(bt);
      }
      list.Remove(node, i);
      nodeMap, bts := nodeMap - {node.bt}, Without(bts, i);
      TimesWithout(old(list.nodes), old(bts), old(nodeMap), old(minBt), maxBt, i);
    }

    /** EraseTrx: fails only for a begin time that is not running.  The check in
        UpdateMinBT passes, and the watermark moves exactly when the first goes. */
    method EraseTrx(bt: nat) returns (ok: bool, ghost i: nat)
      requires Valid()
      modifies this, list, list.repr
      ensures Valid() && maxBt == old(maxBt) && minBt >= old(minBt) && list.repr == old(list.repr)
      ensures ok <==> bt in old(bts)
      ensures !ok ==> bts == old(bts) && minBt == old(minBt)
      ensures ok ==> i < |old(bts)| && old(bts)[i] == bt && bts == Without(old(bts), i)
      ensures ok ==> minBt == NextMin(old(bts), old(minBt), maxBt, i)
      ensures ok ==> minBt == if bts == [] then maxBt + 1 else bts[0]
    {
      InElements(bts, bt);
      i := 0;
      if bt !in nodeMap {
        return false, i;
      }
      i := IndexOf(list.nodes, bts, nodeMap, bt);
      ok := EraseNode(nodeMap[bt], i);
    }
  }
}
